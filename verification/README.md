# QMXAI lotto predictor: integer and byte kernels

This project models, in Dafny, the integer and byte logic of the QMXAI LOTTO MAX
predictor (`qmxai_lotto_max_advanced.py`). The program is a deterministic
"seed-to-numbers" generator: from the last past draw it derives a floating-point
seed, seeds Python's generator, samples the main numbers, sorts them and derives a
bonus number on a 1-based ring. It also holds a small repeating-key XOR over bytes.

What is modelled, module by module:

- `PyInt` (pyint.dfy): Python's `abs` and Python's `%`, which rounds toward minus
  infinity and so differs from Dafny's Euclidean `%` when the modulus is negative.
  Rings of any sign are therefore modelled as Python evaluates them; only a zero
  modulus is excluded, because Python raises ZeroDivisionError there. The module also
  fixes the platform limits of a 64-bit CPython build that the program can hit
  whatever memory the machine has: `sys.maxsize`, beyond which `len` raises
  OverflowError; `sys.maxsize // 8`, the longest list CPython will allocate before it
  raises MemoryError; and the magnitude from which converting an int to float
  raises OverflowError.
- `Ring` (ring.dfy): `circ_dist`, `map_to_ring`, and the `x % ring or ring` pattern
  of the bonus derivation (`Wrap`).
- `Parity` (parity.dfy): the parity word of `entropy_seed`, built as the source
  builds it: a string of '0'/'1' digits read by `int(s, 2)`.
- `Sorting` (sorting.dfy): `sorted` on integers, as an insertion sort, with a proof
  that every ascending rearrangement is the same list, so the choice of algorithm
  cannot matter.
- `Sampling` (sampling.dfy): `rng.sample(range(1, ring + 1), k)`, as draws without
  replacement from the population, driven by an uninterpreted index stream.
- `Game` (game.dfy): `Draw`, `GameConf`, `GAMES`, the exact statistics that
  `entropy_seed` reads from a draw, and `generate_demo_numbers`, with the Python
  exceptions it raises as `Err` values in the order it meets them. Those are: the
  empty history, the empty draw, a failing floating-point seed, the population too
  long for `len`, the sample size, a sample list too long to allocate, a
  `bonus_ring` too large for a float, a zero
  `bonus_ring`, and no main numbers drawn. When the floating-point seed fails is
  left to the uninterpreted seed function (see "Left out").
- `Payload` (payload.dfy): `b"".join` of key fragments and the repeating-key XOR of
  line 81, on `bv8` bytes, separately and together.

`map_to_ring` reduces modulo `ring + 1`, not `ring`. So `map_to_ring(ring + 1, ring)`
is `ring`, not 1, and the value `ring` has two pre-images in each period (0 and
`ring`). The bonus derivation does not call `map_to_ring`. It reduces modulo
`bonus_ring` with 0 replaced by `bonus_ring`, which is a different map. The model
follows the code and keeps the two apart (`Ring.MapToRingCollision`,
`Ring.WrapIsNotMapToRing`).

`int(round(golden_angle_steps(bonus_ring))) or 1` replaces only 0. A negative rounded
value would be kept, so the step is proved non-zero in general, and at least 1 only
when the rounded value is non-negative. That holds whenever `bonus_ring` is positive.

## Model

| member | source | states |
|---|---|---|
| PyInt.Abs | qmxai_lotto_max_advanced.py:60 | `abs(x)` is `x` or `-x`, whichever is larger, so it is never negative |
| PyInt.Mod | qmxai_lotto_max_advanced.py:60-64 | Python's `%`: the result lies in `[0, m)` for a positive modulus and in `(m, 0]` for a negative one, and is congruent to the dividend |
| PyInt.ModUnique | qmxai_lotto_max_advanced.py:60-64 | any value in that window congruent to the dividend is Python's remainder, so the window and congruence pin `%` down |
| Ring.CircDist | qmxai_lotto_max_advanced.py:59-61 | on a positive ring the circular distance lies in `[0, ring/2]` |
| Ring.CircDistIsShortestWalk | qmxai_lotto_max_advanced.py:59-61 | the distance is the length of a walk one way or the other round the ring from `b` to `a`, and no shorter walk exists |
| Ring.CircDistSymmetric | qmxai_lotto_max_advanced.py:59-61 | `circ_dist(a, b) == circ_dist(b, a)` |
| Ring.CircDistZeroIff | qmxai_lotto_max_advanced.py:59-61 | the distance is 0 exactly when `a` and `b` are congruent modulo `ring`; in particular `circ_dist(a, a) == 0` |
| Ring.MapToRing | qmxai_lotto_max_advanced.py:63-65 | for `ring >= 1` every integer, negative ones included, lands in `[1, ring]`; ring 0 gives 0 and a ring below -1 gives `[ring, -1]` |
| Ring.MapToRingFixesRing | qmxai_lotto_max_advanced.py:63-65 | positions already in `[1, ring]` are left unchanged |
| Ring.MapToRingOfMultiple | qmxai_lotto_max_advanced.py:63-65 | every multiple of `ring + 1` is sent to `ring` |
| Ring.MapToRingPeriodic | qmxai_lotto_max_advanced.py:63-65 | the map repeats with period `ring + 1` |
| Ring.MapToRingCongruence | qmxai_lotto_max_advanced.py:63-65 | off the multiples of `ring + 1` the result is congruent to the input modulo `ring + 1`; on them it is off by one |
| Ring.MapToRingCollision | qmxai_lotto_max_advanced.py:63-65 | on every positive ring, 0, `ring` and `ring + 1` all map to `ring`, so `ring + 1` does not map to 1 |
| Ring.Wrap | qmxai_lotto_max_advanced.py:130-131 | `x % ring or ring` is never 0, lies in `[1, ring]` for a positive ring (`[ring, -1]` for a negative one), and is congruent to `x` |
| Ring.WrapUnique | qmxai_lotto_max_advanced.py:130-131 | it is the only value of that window congruent to `x` |
| Ring.WrapTwice | qmxai_lotto_max_advanced.py:130-131 | wrapping an intermediate sum and wrapping once at the end give the same value |
| Ring.WrapIsNotMapToRing | qmxai_lotto_max_advanced.py:63-65 | on a ring of 50 the bonus pattern sends 51 to 1 while `map_to_ring` sends it to 50 |
| Parity.BinaryValue | qmxai_lotto_max_advanced.py:117 | the base-2 value of an n-digit binary string is below `2^n` |
| Parity.ParseBase2 | qmxai_lotto_max_advanced.py:117 | `int(s, 2)` fails exactly on the empty string |
| Parity.ParityDigits | qmxai_lotto_max_advanced.py:117 | the joined digit string has one binary digit per main number, in draw order, and digit `i` is '1' exactly when `mains[i]` is odd |
| Parity.ParityWord | qmxai_lotto_max_advanced.py:117 | the parity word exists exactly for a non-empty draw and is below `2^len(mains)` |
| Parity.BinaryValueBits | qmxai_lotto_max_advanced.py:117 | digit `i` of a binary string is bit `n - 1 - i` of its value |
| Parity.ParityWordBits | qmxai_lotto_max_advanced.py:117 | bit `n - 1 - i` of the parity word is 1 exactly when `mains[i]` is odd |
| Parity.ParityWordOfDemoDraw | qmxai_lotto_max_advanced.py:136 | the demo draw 3, 9, 16, 26, 34, 41, 46 has parity word 98 |
| Parity.ComputeParityWord | qmxai_lotto_max_advanced.py:117 | a single left-to-right pass `acc * 2 + n % 2` computes the parity word, below `2^n` and with the parity bits |
| Sorting.Insert | qmxai_lotto_max_advanced.py:127 | inserting into an ascending list keeps it ascending and keeps every element; strictness is kept when the new value is absent |
| Sorting.Sort | qmxai_lotto_max_advanced.py:127 | `sorted` returns an ascending rearrangement of the same length, strictly increasing when the input has no repeats |
| Sorting.SortedUnique | qmxai_lotto_max_advanced.py:127 | two ascending lists with the same elements are equal |
| Sorting.SortIsTheSortedPermutation | qmxai_lotto_max_advanced.py:127 | every ascending rearrangement of the input, whatever algorithm produced it, equals the model's `sorted` |
| Sampling.Population | qmxai_lotto_max_advanced.py:127 | `range(1, ring + 1)` holds `1, 2, …, ring` in order, and nothing when `ring` is not positive |
| Sampling.DrawFromPool | qmxai_lotto_max_advanced.py:127 | drawing without replacement yields `k` values, all from the pool, without repeats when the pool has none |
| Sampling.Sample | qmxai_lotto_max_advanced.py:126-127 | `rng.sample` raises OverflowError exactly when the population is longer than `sys.maxsize`. Next it raises ValueError exactly when `k` is negative or larger than the population, then MemoryError exactly when `k` exceeds `sys.maxsize // 8`. Otherwise it gives `k` distinct values in `[1, ring]` |
| Sampling.SortedSampleShape | qmxai_lotto_max_advanced.py:127 | sorting a sample gives a strictly increasing list of the same length and values, inside `[1, ring]` |
| Game.JackpotOrDefault | qmxai_lotto_max_advanced.py:113 | a missing or zero jackpot becomes 50, any other is kept, and the result is never 0 |
| Game.Sum | qmxai_lotto_max_advanced.py:115 | a sum of non-negative numbers is non-negative and at least each of its terms |
| Game.SumConcat | qmxai_lotto_max_advanced.py:115 | `sum(a + b) == sum(a) + sum(b)` |
| Game.SumCons | qmxai_lotto_max_advanced.py:115 | `sum([x] + s) == x + sum(s)`, so summing from the front or the back agrees |
| Game.EntropyInputs | qmxai_lotto_max_advanced.py:112-118 | the integer part of `entropy_seed` fails exactly on an empty draw (StatisticsError); otherwise it reads the count, `sum(mains)`, the parity word (below `2^count`) and the jackpot after the default rule, which is never 0 |
| Game.Last | qmxai_lotto_max_advanced.py:124 | `history[-1]` is the draw that the history ends with |
| Game.Step | qmxai_lotto_max_advanced.py:129 | a zero rounded value becomes 1 and any other is kept, so the step is never 0, and at least 1 when the rounded value is non-negative |
| Game.GenerateNumbers | qmxai_lotto_max_advanced.py:122-132 | returns exactly when history and last draw are non-empty, the floating-point seed succeeds, `0 < mains_count <= ring <= sys.maxsize`, `mains_count <= sys.maxsize // 8`, and `bonus_ring` is non-zero and converts to float. Otherwise it names the first exception in source order. The mains are `mains_count` strictly increasing values in `[1, ring]`. The bonus lies in `[1, bonus_ring]` and is the one `Game.BonusOf` derives from the mains |
| Game.PredictFromSeed | qmxai_lotto_max_advanced.py:126-131 | from the seed `S` on, the same success condition on the game, the same order of exceptions and the same result shape |
| Game.BonusIsOneWrap | qmxai_lotto_max_advanced.py:129-131 | the bonus is the largest main number plus the step plus `int(S*1000)`, wrapped once onto `[1, bonus_ring]` |
| Game.BonusOf | qmxai_lotto_max_advanced.py:129-131 | the bonus of sorted mains is their largest member plus the step plus `int(S*1000)`, wrapped once onto the bonus ring |
| Game.Bonus | qmxai_lotto_max_advanced.py:130-131 | the two wraps `base = start % ring or ring` and `(base + milli) % ring or ring` equal one wrap of `start + milli`, inside `[1, ring]` for a positive ring and `[ring, -1]` for a negative one |
| Game.OnlyLastDrawMatters | qmxai_lotto_max_advanced.py:122-125 | earlier draws, the target date and everything of the last draw that `entropy_seed` does not read never change the prediction |
| Game.LottoMaxPrediction | qmxai_lotto_max_advanced.py:33-35 | with LOTTO_MAX a non-empty last draw fails exactly when the floating-point seed does, and otherwise yields seven strictly increasing numbers in `[1, 50]` and a bonus in `[1, 50]` |
| Game.DemoDrawStats | qmxai_lotto_max_advanced.py:136 | for the demo draw `entropy_seed` reads jackpot 70, sum 175, seven numbers and parity word 98 |
| Payload.Join | qmxai_lotto_max_advanced.py:79-80 | the joined key is as long as all fragments together, begins with the first fragment, and is non-empty exactly when some fragment is |
| Payload.JoinSingleton | qmxai_lotto_max_advanced.py:80 | joining a single fragment gives that fragment |
| Payload.JoinConcat | qmxai_lotto_max_advanced.py:80 | joining two lists of fragments in turn is joining their concatenation, so every fragment appears whole and in order |
| Payload.ToBytes | qmxai_lotto_max_advanced.py:81 | `bytes(xs)` on values in 0..255 keeps the length and each value |
| Payload.RepeatingXor | qmxai_lotto_max_advanced.py:81 | `out[i] == p[i] ^ k[i % len(k)]` for every position, and the output has the payload's length |
| Payload.RepeatingXorInvolution | qmxai_lotto_max_advanced.py:81 | applying the transform twice with the same key returns the payload |
| Payload.XorPayload | qmxai_lotto_max_advanced.py:81 | line 81 on Python integers succeeds exactly when the key is non-empty (or the payload empty) and every value is a byte. An empty key with a non-empty payload raises ZeroDivisionError first; otherwise a non-byte raises ValueError. The output has the payload's length, and XOR-ing it again with the key recovers the payload |
| Payload.XorWithFragments | qmxai_lotto_max_advanced.py:79-81 | with the key joined from fragments, a non-empty payload fails exactly when every fragment is empty or a value is not a byte; otherwise XOR-ing the output with the joined key recovers the payload |

## Left out

- `frac`, `golden_angle_steps`, `PHI`, `GOLDEN_ANGLE_DEG`, `M_SUN`, `C_MPS` and the floating-point tail of `entropy_seed`: IEEE-754 double arithmetic. The seed enters only through `Env.seedOf`, an uninterpreted function of the exact statistics, giving `int(S*1e9)` and `int(S*1000)`. The rounded golden-angle step enters through `Env.roundedSteps`. A jackpot large enough to overflow to infinity is not modelled.
- `statistics.mean`: only its failure on an empty draw is kept. The sum and count, which fix the exact mean, are kept in `SeedStats`, but the rounding to a float is not.
- `random.Random` and the Mersenne Twister: library code outside the repository. Its `randbelow` is the uninterpreted `Env.below`, reduced modulo the pool size. Draws remove the chosen member from the pool. CPython's list variant moves the last member into its place instead. For a population much larger than the sample (more than 85 members for a sample of 7), CPython uses a set variant that redraws an index already taken. Both only rename the indices of an uninterpreted stream.
- Game.GenerateNumbers: when the floating-point tail of `entropy_seed` raises is not computed. `Env.seedOf` returns `None` for it, and the model then returns `FloatSeedFailure`. For example, a last draw `[10**300]` makes `x` infinite, and `math.floor` of the resulting NaN raises ValueError. A draw `[10**400]` raises OverflowError when the int is converted to float.
- Game.LottoMaxPrediction: for the same reason, it does not say which draws make the seed fail, only that nothing else can fail.
- Game.EntropyInputs: states only the integer reads of `entropy_seed`. Its floating-point failures are modelled by `Env.seedOf`, as above.
- `sys.maxsize` is fixed at its 64-bit value (`PyInt.MaxSize`); a 32-bit build would raise OverflowError from `2^31` on.
- Sampling.Sample: the index stream is arbitrary, so nothing is said about which members are drawn or how they are distributed.
- Sampling.Sample, Game.PredictFromSeed, Game.GenerateNumbers: only the fixed MemoryError above `sys.maxsize // 8` is modelled. A smaller `mains_count` can also exhaust the memory of the machine that runs the program, and then Python raises MemoryError where the model returns a sample.
- `base64.b64decode`, `compile`/`exec` and the `PRO()` cache: the decoded bytes are run as code. The model stops at the XOR output and treats it as opaque bytes.
- The key fragments and `_PRO_PAYLOAD` constants: the transform is modelled for any key and payload and is never evaluated on these constants.
- Payload.XorPayload: the XOR of an out-of-range Python integer is not computed bit by bit. The model goes straight to the ValueError that `bytes` raises, because XOR with a byte leaves a value outside 0..255 outside that range.
- Ring.CircDist: for a negative ring only totality is stated. The source promises nothing for such rings, and nothing in the program uses one.
- `banner()`, the `__main__` demo and the Vigenère comments: console output and comments.
- `date` values: a plain record. Calendar validity is `datetime`'s concern and the date is never used.
