/**
 * The sampling algorithms of nupic::Random as functions of the engine state:
 * the Fisher-Yates shuffle that `shuffle` runs in place, and `sample`
 * (copy, shuffle the copy, keep its first nChoices elements).
 */
module SamplingAlgorithms {
  import opened BitEngine

  /** The outcome of an operation that may fail a runtime check (NTA_CHECK throws). */
  datatype Result<+R> = Success(value: R) | Failure(message: string)

  const PopulationTooSmall: string := "population size must be greater than number of choices"

  ghost predicate Distinct<T>(s: seq<T>) {
    forall i, j :: 0 <= i < j < |s| ==> s[i] != s[j]
  }

  /** s with the elements at i and j exchanged. */
  function Swap<T>(s: seq<T>, i: nat, j: nat): seq<T>
    requires i < |s| && j < |s|
  {
    s[i := s[j]][j := s[i]]
  }

  lemma SwapPermutes<T>(s: seq<T>, i: nat, j: nat)
    requires i < |s| && j < |s|
    ensures |Swap(s, i, j)| == |s| && multiset(Swap(s, i, j)) == multiset(s)
  {
  }

  /**
   * Fisher-Yates over the i elements of s from position first on, from the
   * top down: for each offset p = i-1, ..., 1 one raw word w is drawn and
   * s[first+p] is exchanged with s[first + w % (p+1)]. Returns the rearranged
   * sequence and the advanced engine.
   */
  function FisherYates<T>(s: seq<T>, first: nat, i: nat, g: EngineState): (seq<T>, EngineState)
    requires first + i <= |s|
    decreases i
  {
    if i <= 1 then (s, g)
    else FisherYates(Swap(s, first + i - 1, first + g.Output() % i), first, i - 1, g.Advance(1))
  }

  /** The shuffle rearranges s without losing or adding an element. */
  lemma {:induction false} FisherYatesPermutes<T>(s: seq<T>, first: nat, i: nat, g: EngineState)
    requires first + i <= |s|
    ensures |FisherYates(s, first, i, g).0| == |s|
    ensures multiset(FisherYates(s, first, i, g).0) == multiset(s)
    decreases i
  {
    if i > 1 {
      SwapPermutes(s, first + i - 1, first + g.Output() % i);
      FisherYatesPermutes(Swap(s, first + i - 1, first + g.Output() % i), first, i - 1, g.Advance(1));
    }
  }

  /** The shuffle of s[first..first+i] leaves every element outside that range alone. */
  lemma {:induction false} FisherYatesFrame<T>(s: seq<T>, first: nat, i: nat, g: EngineState, k: nat)
    requires first + i <= |s| && k < |s| && !(first <= k < first + i)
    ensures |FisherYates(s, first, i, g).0| == |s|
    ensures FisherYates(s, first, i, g).0[k] == s[k]
    decreases i
  {
    if i > 1 {
      FisherYatesFrame(Swap(s, first + i - 1, first + g.Output() % i), first, i - 1, g.Advance(1), k);
    }
  }

  /** The shuffle of i elements draws one raw word per element but one. */
  lemma {:induction false} FisherYatesDraws<T>(s: seq<T>, first: nat, i: nat, g: EngineState)
    requires first + i <= |s|
    ensures FisherYates(s, first, i, g).1 == g.Advance(ShuffleDraws(i))
    decreases i
  {
    if i > 1 {
      FisherYatesDraws(Swap(s, first + i - 1, first + g.Output() % i), first, i - 1, g.Advance(1));
    }
  }

  /**
   * After a shuffle of s[first..last] the range holds a permutation of what
   * was there and the rest of s is unchanged.
   */
  lemma ShuffleRange<T>(s: seq<T>, first: nat, last: nat, g: EngineState)
    requires first <= last <= |s|
    ensures var r := FisherYates(s, first, last - first, g).0;
      && |r| == |s|
      && r[..first] == s[..first]
      && r[last..] == s[last..]
      && multiset(r[first..last]) == multiset(s[first..last])
  {
    var r := FisherYates(s, first, last - first, g).0;
    FisherYatesPermutes(s, first, last - first, g);
    forall k | 0 <= k < |s| && !(first <= k < last) ensures r[k] == s[k] {
      FisherYatesFrame(s, first, last - first, g, k);
    }
    assert r[..first] == s[..first];
    assert r[last..] == s[last..];
    assert r == r[..first] + r[first..last] + r[last..];
    assert s == s[..first] + s[first..last] + s[last..];
    MultisetCancel(multiset(s[..first]), multiset(r[first..last]), multiset(s[first..last]), multiset(s[last..]));
  }

  lemma MultisetCancel<T>(a: multiset<T>, b: multiset<T>, b': multiset<T>, c: multiset<T>)
    requires a + b + c == a + b' + c
    ensures b == b'
  {
    forall x ensures b[x] == b'[x] {
      assert (a + b + c)[x] == (a + b' + c)[x];
    }
  }

  /** Nothing is left to do once at most one position remains. */
  lemma FisherYatesDone<T>(s: seq<T>, first: nat, i: nat, g: EngineState)
    requires i <= 1 && first + i <= |s|
    ensures FisherYates(s, first, i, g) == (s, g)
  {
  }

  /** What shuffling the whole of s leaves behind. */
  function Shuffled<T>(s: seq<T>, g: EngineState): (seq<T>, EngineState) {
    FisherYates(s, 0, |s|, g)
  }

  /** The number of raw words a shuffle of n elements draws. */
  function ShuffleDraws(n: nat): nat {
    if n <= 1 then 0 else n - 1
  }

  /**
   * sample(population, nChoices): no draw at all for nChoices == 0, a failed
   * check (and no draw) when nChoices exceeds the population, otherwise the
   * first nChoices elements of a shuffled copy.
   */
  function Sampled<T>(population: seq<T>, nChoices: nat, g: EngineState): (Result<seq<T>>, EngineState) {
    if nChoices == 0 then (Success([]), g)
    else if nChoices > |population| then (Failure(PopulationTooSmall), g)
    else
      var shuffled := Shuffled(population, g);
      FisherYatesPermutes(population, 0, |population|, g);
      (Success(shuffled.0[..nChoices]), shuffled.1)
  }

  /**
   * The size laws of sample: nothing chosen and nothing drawn for zero
   * choices, a failed check and nothing drawn for too many, otherwise exactly
   * nChoices elements taken from the population's multiset after a full
   * shuffle's worth of draws, and the population's whole multiset when all
   * of it is chosen.
   */
  lemma SampleLaws<T>(population: seq<T>, nChoices: nat, g: EngineState)
    ensures var r := Sampled(population, nChoices, g);
      && (nChoices == 0 ==> r == (Success([]), g))
      && (nChoices > |population| ==> r == (Failure(PopulationTooSmall), g))
      && (0 < nChoices <= |population| ==>
            && r.0.Success?
            && |r.0.value| == nChoices
            && multiset(r.0.value) <= multiset(population)
            && r.1 == g.Advance(ShuffleDraws(|population|)))
      && (nChoices == |population| ==> r.0.Success? && multiset(r.0.value) == multiset(population))
  {
    if 0 < nChoices <= |population| {
      var t := Shuffled(population, g).0;
      FisherYatesPermutes(population, 0, |population|, g);
      FisherYatesDraws(population, 0, |population|, g);
      assert t == t[..nChoices] + t[nChoices..];
      assert multiset(t) == multiset(t[..nChoices]) + multiset(t[nChoices..]);
      assert nChoices == |population| ==> t[..nChoices] == t;
    }
  }

  /** Exchanging two elements keeps a duplicate-free sequence duplicate-free. */
  lemma SwapKeepsDistinct<T>(s: seq<T>, i: nat, j: nat)
    requires i < |s| && j < |s| && Distinct(s)
    ensures Distinct(Swap(s, i, j))
  {
    var r := Swap(s, i, j);
    forall p, q | 0 <= p < q < |r| ensures r[p] != r[q] {
      var p' := if p == i then j else if p == j then i else p;
      var q' := if q == i then j else if q == j then i else q;
      assert r[p] == s[p'] && r[q] == s[q'];
    }
  }

  /** The shuffle neither duplicates nor drops an element. */
  lemma {:induction false} FisherYatesKeepsDistinct<T>(s: seq<T>, first: nat, i: nat, g: EngineState)
    requires first + i <= |s| && Distinct(s)
    ensures Distinct(FisherYates(s, first, i, g).0)
    decreases i
  {
    if i > 1 {
      var t := Swap(s, first + i - 1, first + g.Output() % i);
      SwapKeepsDistinct(s, first + i - 1, first + g.Output() % i);
      FisherYatesKeepsDistinct(t, first, i - 1, g.Advance(1));
    }
  }

  /** sample draws without replacement: distinct elements give distinct choices. */
  lemma SampleWithoutReplacement<T>(population: seq<T>, nChoices: nat, g: EngineState)
    requires Distinct(population)
    ensures Sampled(population, nChoices, g).0.Success? ==> Distinct(Sampled(population, nChoices, g).0.value)
  {
    if 0 < nChoices <= |population| {
      FisherYatesKeepsDistinct(population, 0, |population|, g);
      FisherYatesPermutes(population, 0, |population|, g);
    }
  }

  /** Every chosen element is an element of the population. */
  lemma SampleDrawsFromPopulation<T>(population: seq<T>, nChoices: nat, g: EngineState, x: T)
    requires Sampled(population, nChoices, g).0.Success?
    requires x in Sampled(population, nChoices, g).0.value
    ensures x in population
  {
    var chosen := Sampled(population, nChoices, g).0.value;
    SampleLaws(population, nChoices, g);
    assert x in multiset(chosen);
  }

  /**
   * From the same engine state, a smaller sample is a prefix of a larger one,
   * and both leave the engine in the same state.
   */
  lemma SamplesNest<T>(population: seq<T>, m: nat, n: nat, g: EngineState)
    requires 0 < m <= n <= |population|
    ensures |Sampled(population, n, g).0.value| == n
    ensures Sampled(population, m, g).0.value == Sampled(population, n, g).0.value[..m]
    ensures Sampled(population, m, g).1 == Sampled(population, n, g).1
  {
    var t := Shuffled(population, g).0;
    FisherYatesPermutes(population, 0, |population|, g);
    assert t[..n][..m] == t[..m];
  }
}
