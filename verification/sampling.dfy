/** `rng.sample(range(1, ring + 1), k)`: `k` distinct members of the population,
    chosen by the seeded generator. The generator itself (Python's Mersenne Twister)
    is not modelled: its `randbelow` is an uninterpreted index stream, and each draw
    takes the chosen member out of what is left of the pool. CPython's list variant
    moves the last pool member into the vacancy instead, and its set variant (for a
    population much larger than the sample) redraws an index already taken; both
    only rename the indices of an uninterpreted stream. */
module Sampling {
  import opened Wrappers
  import opened PyInt
  import opened Sorting

  /** `range(1, ring + 1)`: empty unless `ring` is positive. */
  function Population(ring: int): (p: seq<int>)
    ensures |p| == (if ring > 0 then ring else 0)
    ensures forall i :: 0 <= i < |p| ==> p[i] == i + 1
  {
    if ring > 0 then seq(ring, i => i + 1) else []
  }

  /** The generator's `randbelow`: the index chosen, under `seed`, at draw number
      `i` from a pool of `n` members. Only its value modulo `n` is used. */
  type IndexStream = (int, nat, nat) -> nat

  predicate InRange(s: seq<int>, lo: int, hi: int)
  {
    forall i :: 0 <= i < |s| ==> lo <= s[i] <= hi
  }

  /** What `rng.sample(range(1, ring + 1), k)` promises: `k` distinct members of `[1, ring]`. */
  predicate IsSample(s: seq<int>, ring: int, k: int)
  {
    |s| == k && Distinct(s) && InRange(s, 1, ring)
  }

  /** Draw `k` members without replacement, the `i`-th draw taking index
      `below(seed, i, |pool|) % |pool|` of what is left. */
  function DrawFromPool(pool: seq<int>, k: nat, seed: int, i: nat, below: IndexStream): (r: seq<int>)
    requires k <= |pool|
    ensures |r| == k
    ensures forall y :: y in r ==> y in pool
    ensures Distinct(pool) ==> Distinct(r)
    decreases k
  {
    if k == 0 then []
    else
      var j := below(seed, i, |pool|) % |pool|;
      var rest := pool[..j] + pool[j + 1..];
      RemoveAt(pool, j);
      [pool[j]] + DrawFromPool(rest, k - 1, seed, i + 1, below)
  }

  /** Taking element `j` out of a pool leaves only pool members behind, and, when the
      pool has no repeats, leaves a pool without repeats that no longer holds it. */
  lemma RemoveAt(pool: seq<int>, j: nat)
    requires j < |pool|
    ensures |pool[..j] + pool[j + 1..]| == |pool| - 1
    ensures forall y :: y in pool[..j] + pool[j + 1..] ==> y in pool
    ensures Distinct(pool) ==> Distinct(pool[..j] + pool[j + 1..]) && pool[j] !in pool[..j] + pool[j + 1..]
  {
    var rest := pool[..j] + pool[j + 1..];
    assert forall k :: 0 <= k < |rest| ==> rest[k] == pool[if k < j then k else k + 1];
  }

  /** The exceptions `rng.sample` raises, in the order it checks for them. */
  datatype SampleError =
    | LengthOverflow    // OverflowError: `len(population)` above `sys.maxsize`
    | SizeOutOfRange    // ValueError: `k` negative or larger than the population
    | ResultTooLong     // MemoryError: `[None] * k` longer than CPython allocates

  /** The arguments that pass `rng.sample`'s checks of `len(population)` and of `k`. */
  predicate SizeInRange(ring: int, k: int)
  {
    |Population(ring)| <= MaxSize && 0 <= k <= |Population(ring)|
  }

  /** The arguments on which `rng.sample(range(1, ring + 1), k)` returns. */
  predicate SampleSucceeds(ring: int, k: int)
  {
    SizeInRange(ring, k) && k <= MaxListLength
  }

  /** `rng.sample(range(1, ring + 1), k)`: OverflowError when the population is
      longer than `sys.maxsize`, then ValueError unless `0 <= k <= len(population)`,
      then MemoryError when the result list `[None] * k` is too long to allocate,
      and otherwise `k` distinct members of `[1, ring]`. */
  function Sample(ring: int, k: int, seed: int, below: IndexStream): (r: Result<seq<int>, SampleError>)
    ensures r.Ok? <==> SampleSucceeds(ring, k)
    ensures |Population(ring)| > MaxSize ==> r == Err(LengthOverflow)
    ensures |Population(ring)| <= MaxSize && (k < 0 || k > |Population(ring)|) ==> r == Err(SizeOutOfRange)
    ensures SizeInRange(ring, k) && k > MaxListLength ==> r == Err(ResultTooLong)
    ensures r.Ok? ==> IsSample(r.value, ring, k)
  {
    var pool := Population(ring);
    if |pool| > MaxSize then Err(LengthOverflow)
    else if k < 0 || k > |pool| then Err(SizeOutOfRange)
    else if k > MaxListLength then Err(ResultTooLong)
    else
      var drawn := DrawFromPool(pool, k, seed, 0, below);
      assert forall y :: y in pool ==> 1 <= y <= ring;
      assert forall i :: 0 <= i < |drawn| ==> drawn[i] in pool;
      Ok(drawn)
  }

  /** `sorted` of a sample: strictly increasing, of the same length, inside `[1, ring]`,
      and holding exactly the sampled values. */
  lemma SortedSampleShape(drawn: seq<int>, ring: int, k: int)
    requires IsSample(drawn, ring, k)
    ensures StrictlyIncreasing(Sort(drawn))
    ensures |Sort(drawn)| == k
    ensures InRange(Sort(drawn), 1, ring)
    ensures multiset(Sort(drawn)) == multiset(drawn)
  {
    var m := Sort(drawn);
    forall i | 0 <= i < |m|
      ensures 1 <= m[i] <= ring
    {
      assert m[i] in multiset(drawn);
    }
  }
}
