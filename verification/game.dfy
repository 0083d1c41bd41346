/** The game records and the integer skeleton of the predictor: the exact
    statistics `entropy_seed` takes from the last draw, and `generate_demo_numbers`,
    with the floating-point seed and the generator as uninterpreted inputs. */
module Game {
  import opened Wrappers
  import opened PyInt
  import opened Ring
  import opened Parity
  import opened Sorting
  import opened Sampling

  datatype Date = Date(year: int, month: int, day: int)

  /** `Draw`: one past result. `jackpotMillions` is Python's `Optional[float]`. */
  datatype Draw = Draw(date: Date, jackpotMillions: Option<real>, mains: seq<int>, bonus: int)

  /** `GameConf`. Nothing is checked at construction; bad values fail later, in
      `GenerateNumbers`. */
  datatype GameConf = GameConf(name: string, ring: int, mainsCount: int, bonusRing: int)

  /** The only entry of `GAMES`. */
  const LottoMax := GameConf("LOTTO_MAX", 50, 7, 50)

  /** The exceptions `generate_demo_numbers` can raise, in the order it meets them. */
  datatype Error =
    | EmptyHistory          // IndexError: `history[-1]` on an empty list
    | EmptyDraw             // StatisticsError: `statistics.mean` of no main numbers
    | FloatSeedFailure      // OverflowError or ValueError in the floating-point tail of `entropy_seed`
    | PopulationOverflow    // OverflowError: `len(range(1, ring + 1))` above `sys.maxsize`
    | SampleSizeOutOfRange  // ValueError: `rng.sample` asked for a negative or too large sample
    | SampleMemoryError     // MemoryError: `rng.sample` cannot allocate its result list
    | BonusRingOverflow     // OverflowError: `360.0 / ring` cannot convert `ring` to float
    | ZeroBonusRing         // ZeroDivisionError: `360.0 / ring` in `golden_angle_steps`
    | NoMains               // IndexError: `mains[-1]` when no main number was drawn

  /** `jackpot_millions if jackpot_millions else 50.0`: `None` and `0.0` are both falsy. */
  function JackpotOrDefault(j: Option<real>): (r: real)
    ensures r != 0.0
    ensures j.Some? && j.value != 0.0 ==> r == j.value
    ensures j.None? || j.value == 0.0 ==> r == 50.0
  {
    match j
    case Some(v) => if v != 0.0 then v else 50.0
    case None => 50.0
  }

  /** Python's `sum`. A sum of non-negative numbers is non-negative and at least
      each of its terms. */
  function Sum(s: seq<int>): (t: int)
    ensures (forall i :: 0 <= i < |s| ==> s[i] >= 0) ==> t >= 0
    ensures (forall i :: 0 <= i < |s| ==> s[i] >= 0) ==> forall i :: 0 <= i < |s| ==> s[i] <= t
  {
    if |s| == 0 then 0
    else
      var pre := s[..|s| - 1];
      assert forall i :: 0 <= i < |pre| ==> pre[i] == s[i];
      Sum(pre) + s[|s| - 1]
  }

  /** `sum(a + b) == sum(a) + sum(b)`: the order in which terms are grouped does not matter. */
  lemma {:induction false} SumConcat(a: seq<int>, b: seq<int>)
    ensures Sum(a + b) == Sum(a) + Sum(b)
    decreases |b|
  {
    if |b| == 0 {
      assert a + b == a;
    } else {
      assert (a + b)[..|a + b| - 1] == a + b[..|b| - 1];
      SumConcat(a, b[..|b| - 1]);
    }
  }

  /** `sum([x] + s) == x + sum(s)`: summing from the front gives the same total. */
  lemma SumCons(x: int, s: seq<int>)
    ensures Sum([x] + s) == x + Sum(s)
  {
    SumConcat([x], s);
    assert Sum([x]) == Sum([]) + x by { assert [x][..0] == []; }
  }

  /** Everything `entropy_seed` reads from the last draw, computed exactly: the
      jackpot after the default rule, `sum(mains)`, `len(mains)` (which with the sum
      fixes `statistics.mean`), and the parity word. */
  datatype SeedStats = SeedStats(jackpotMillions: real, total: int, count: nat, parity: nat)

  /** The integer part of `entropy_seed`: fails as `statistics.mean` does on an empty
      draw; otherwise the parity word fits in `count` bits and the jackpot is never 0. */
  function EntropyInputs(d: Draw): (r: Result<SeedStats, Error>)
    ensures r.Err? <==> |d.mains| == 0
    ensures r.Err? ==> r.error == EmptyDraw
    ensures r.Ok? ==> r.value.total == Sum(d.mains)
    ensures r.Ok? ==> r.value.jackpotMillions == JackpotOrDefault(d.jackpotMillions)
    ensures r.Ok? ==> r.value.count == |d.mains| && r.value.parity < Pow2(r.value.count)
    ensures r.Ok? ==> Some(r.value.parity) == ParityWord(d.mains)
    ensures r.Ok? ==> r.value.jackpotMillions != 0.0
  {
    if |d.mains| == 0 then Err(EmptyDraw)
    else
      Ok(SeedStats(JackpotOrDefault(d.jackpotMillions), Sum(d.mains), |d.mains|,
                   ParityWord(d.mains).value))
  }

  /** The two integers taken from the seed `S`: `int(S * 1e9)`, which seeds the
      generator, and `int(S * 1000)`, the bonus offset. */
  datatype SeedDigits = SeedDigits(rngSeed: int, milli: int)

  /** What the model leaves uninterpreted: the floating-point tail of `entropy_seed`
      (as a function of its exact inputs; `None` where it raises OverflowError or
      ValueError), the generator's `randbelow`, and
      `int(round(golden_angle_steps(bonus_ring)))` for a `bonus_ring` that converts
      to a non-zero float. */
  datatype Env = Env(seedOf: SeedStats -> Option<SeedDigits>, below: IndexStream, roundedSteps: int -> int)

  /** `int(round(...)) or 1`: a zero step becomes 1, any other value is kept. */
  function Step(rounded: int): (s: int)
    ensures rounded == 0 ==> s == 1
    ensures s != 0
    ensures rounded >= 0 ==> s >= 1
    ensures rounded != 0 ==> s == rounded
  {
    if rounded == 0 then 1 else rounded
  }

  datatype Prediction = Prediction(mains: seq<int>, bonus: int)

  /** `history[-1]`: the history is some earlier draws followed by this one. */
  function Last(history: seq<Draw>): (d: Draw)
    requires |history| > 0
    ensures history == history[..|history| - 1] + [d]
  {
    history[|history| - 1]
  }

  /** The histories whose last draw gets through `entropy_seed`. */
  predicate SeedSucceeds(history: seq<Draw>, env: Env)
  {
    && |history| > 0
    && |Last(history).mains| > 0
    && env.seedOf(EntropyInputs(Last(history)).value).Some?
  }

  /** The configurations on which lines 126-131 return, once the seed is known. */
  predicate GameRuns(game: GameConf)
  {
    && SampleSucceeds(game.ring, game.mainsCount)
    && game.mainsCount > 0
    && ConvertsToFloat(game.bonusRing)
    && game.bonusRing != 0
  }

  /** The configurations and histories on which `generate_demo_numbers` returns. */
  predicate Runs(history: seq<Draw>, game: GameConf, env: Env)
  {
    SeedSucceeds(history, env) && GameRuns(game)
  }

  /** `generate_demo_numbers(history, game, tgt)`. `target` is accepted and ignored,
      as in the source. */
  function GenerateNumbers(history: seq<Draw>, game: GameConf, target: Date, env: Env): (r: Result<Prediction, Error>)
    ensures r.Ok? <==> Runs(history, game, env)
    ensures |history| == 0 ==> r == Err(EmptyHistory)
    ensures |history| > 0 && |Last(history).mains| == 0 ==> r == Err(EmptyDraw)
    ensures |history| > 0 && |Last(history).mains| > 0 && !SeedSucceeds(history, env) ==> r == Err(FloatSeedFailure)
    ensures SeedSucceeds(history, env) && |Population(game.ring)| > MaxSize ==> r == Err(PopulationOverflow)
    ensures SeedSucceeds(history, env) && |Population(game.ring)| <= MaxSize && !SizeInRange(game.ring, game.mainsCount)
            ==> r == Err(SampleSizeOutOfRange)
    ensures SeedSucceeds(history, env) && SizeInRange(game.ring, game.mainsCount) && game.mainsCount > MaxListLength
            ==> r == Err(SampleMemoryError)
    ensures SeedSucceeds(history, env) && SampleSucceeds(game.ring, game.mainsCount) && !ConvertsToFloat(game.bonusRing)
            ==> r == Err(BonusRingOverflow)
    ensures SeedSucceeds(history, env) && SampleSucceeds(game.ring, game.mainsCount) && game.bonusRing == 0
            ==> r == Err(ZeroBonusRing)
    ensures var fine := SampleSucceeds(game.ring, game.mainsCount) && ConvertsToFloat(game.bonusRing) && game.bonusRing != 0;
            SeedSucceeds(history, env) && fine && game.mainsCount == 0 ==> r == Err(NoMains)
    ensures r.Ok? ==> |r.value.mains| == game.mainsCount
    ensures r.Ok? ==> StrictlyIncreasing(r.value.mains) && InRange(r.value.mains, 1, game.ring)
    ensures r.Ok? && game.bonusRing > 0 ==> 1 <= r.value.bonus <= game.bonusRing
    ensures r.Ok? && game.bonusRing < 0 ==> game.bonusRing <= r.value.bonus <= -1
    ensures r.Ok? ==> r.value.bonus == BonusOf(r.value.mains, env.seedOf(EntropyInputs(Last(history)).value).value, game, env)
  {
    if |history| == 0 then Err(EmptyHistory)
    else
      match EntropyInputs(Last(history))
      case Err(e) => Err(e)
      case Ok(stats) =>
        match env.seedOf(stats)
        case None => Err(FloatSeedFailure)
        case Some(digits) => PredictFromSeed(digits, game, env)
  }

  /** Lines 126-131, once the seed `S` is known. */
  function PredictFromSeed(digits: SeedDigits, game: GameConf, env: Env): (r: Result<Prediction, Error>)
    ensures r.Ok? <==> GameRuns(game)
    ensures r.Err? ==> r.error !in {EmptyHistory, EmptyDraw, FloatSeedFailure}
    ensures |Population(game.ring)| > MaxSize ==> r == Err(PopulationOverflow)
    ensures |Population(game.ring)| <= MaxSize && !SizeInRange(game.ring, game.mainsCount) ==> r == Err(SampleSizeOutOfRange)
    ensures SizeInRange(game.ring, game.mainsCount) && game.mainsCount > MaxListLength ==> r == Err(SampleMemoryError)
    ensures SampleSucceeds(game.ring, game.mainsCount) && !ConvertsToFloat(game.bonusRing) ==> r == Err(BonusRingOverflow)
    ensures SampleSucceeds(game.ring, game.mainsCount) && game.bonusRing == 0 ==> r == Err(ZeroBonusRing)
    ensures var fine := SampleSucceeds(game.ring, game.mainsCount) && ConvertsToFloat(game.bonusRing) && game.bonusRing != 0;
            fine && game.mainsCount == 0 ==> r == Err(NoMains)
    ensures r.Ok? ==> |r.value.mains| == game.mainsCount
    ensures r.Ok? ==> StrictlyIncreasing(r.value.mains) && InRange(r.value.mains, 1, game.ring)
    ensures r.Ok? && game.bonusRing > 0 ==> 1 <= r.value.bonus <= game.bonusRing
    ensures r.Ok? && game.bonusRing < 0 ==> game.bonusRing <= r.value.bonus <= -1
    ensures r.Ok? ==> r.value.bonus == BonusOf(r.value.mains, digits, game, env)
  {
    match Sample(game.ring, game.mainsCount, digits.rngSeed, env.below)
    case Err(LengthOverflow) => Err(PopulationOverflow)
    case Err(SizeOutOfRange) => Err(SampleSizeOutOfRange)
    case Err(ResultTooLong) => Err(SampleMemoryError)
    case Ok(drawn) =>
      if !ConvertsToFloat(game.bonusRing) then Err(BonusRingOverflow)
      else if game.bonusRing == 0 then Err(ZeroBonusRing)
      else
        var mains := Sort(drawn);
        SortedSampleShape(drawn, game.ring, game.mainsCount);
        if |mains| == 0 then Err(NoMains)
        else
          Ok(Prediction(mains, BonusOf(mains, digits, game, env)))
  }

  /** Lines 129-131 for the sorted mains: the step from the golden angle, then the
      two wraps of `Bonus`. */
  function BonusOf(mains: seq<int>, digits: SeedDigits, game: GameConf, env: Env): (b: int)
    requires |mains| > 0 && game.bonusRing != 0
    ensures b == Wrap(mains[|mains| - 1] + Step(env.roundedSteps(game.bonusRing)) + digits.milli, game.bonusRing)
  {
    Bonus(mains[|mains| - 1] + Step(env.roundedSteps(game.bonusRing)), digits.milli, game.bonusRing)
  }

  /** Lines 130-131 with `start = mains[-1] + step`: `base = start % ring or ring`,
      then `(base + milli) % ring or ring`. The intermediate wrap changes nothing: the
      bonus is `start + milli` wrapped once onto the ring. */
  function Bonus(start: int, milli: int, ring: int): (b: int)
    requires ring != 0
    ensures b == Wrap(start + milli, ring)
    ensures ring > 0 ==> 1 <= b <= ring
    ensures ring < 0 ==> ring <= b <= -1
  {
    WrapTwice(start, milli, ring);
    Wrap(Wrap(start, ring) + milli, ring)
  }

  /** The bonus is the largest main number, plus the step, plus `int(S * 1000)`,
      wrapped once onto the bonus ring. */
  lemma BonusIsOneWrap(history: seq<Draw>, game: GameConf, target: Date, env: Env)
    requires Runs(history, game, env)
    ensures var r := GenerateNumbers(history, game, target, env);
            var top := r.value.mains[|r.value.mains| - 1];
            var digits := env.seedOf(EntropyInputs(Last(history)).value).value;
            r.value.bonus == Wrap(top + Step(env.roundedSteps(game.bonusRing)) + digits.milli, game.bonusRing)
  {
  }

  /** Only the last draw matters, and of it only the statistics `entropy_seed` reads;
      earlier draws and the target date never change the prediction. */
  lemma OnlyLastDrawMatters(h1: seq<Draw>, h2: seq<Draw>, game: GameConf, t1: Date, t2: Date, env: Env)
    requires |h1| > 0 && |h2| > 0
    requires EntropyInputs(Last(h1)) == EntropyInputs(Last(h2))
    ensures GenerateNumbers(h1, game, t1, env) == GenerateNumbers(h2, game, t2, env)
  {}

  /** With the built-in LOTTO_MAX game a non-empty last draw fails only where the
      floating-point seed does, and otherwise yields seven strictly increasing main
      numbers in `[1, 50]` and a bonus in `[1, 50]`. */
  lemma LottoMaxPrediction(history: seq<Draw>, target: Date, env: Env)
    requires |history| > 0 && |Last(history).mains| > 0
    ensures var r := GenerateNumbers(history, LottoMax, target, env);
            r.Err? <==> env.seedOf(EntropyInputs(Last(history)).value).None?
    ensures var r := GenerateNumbers(history, LottoMax, target, env);
            r.Err? ==> r.error == FloatSeedFailure
    ensures var r := GenerateNumbers(history, LottoMax, target, env);
            r.Ok? ==>
            && |r.value.mains| == 7
            && StrictlyIncreasing(r.value.mains)
            && InRange(r.value.mains, 1, 50)
            && 1 <= r.value.bonus <= 50
  {}

  /** The demo's last draw, 16 August 2025. */
  const DemoDraw := Draw(Date(2025, 8, 16), Some(70.0), [3, 9, 16, 26, 34, 41, 46], 7)

  /** For the demo draw `entropy_seed` reads jackpot 70, sum 175, seven numbers and parity word 98. */
  lemma DemoDrawStats()
    ensures EntropyInputs(DemoDraw) == Ok(SeedStats(70.0, 175, 7, 98))
  {
    ParityWordOfDemoDraw();
    var m := DemoDraw.mains;
    assert Sum([3]) == 3;
    assert [3, 9][..1] == [3];
    assert Sum([3, 9]) == 12;
    assert [3, 9, 16][..2] == [3, 9];
    assert Sum([3, 9, 16]) == 28;
    assert [3, 9, 16, 26][..3] == [3, 9, 16];
    assert Sum([3, 9, 16, 26]) == 54;
    assert [3, 9, 16, 26, 34][..4] == [3, 9, 16, 26];
    assert Sum([3, 9, 16, 26, 34]) == 88;
    assert [3, 9, 16, 26, 34, 41][..5] == [3, 9, 16, 26, 34];
    assert Sum([3, 9, 16, 26, 34, 41]) == 129;
    assert [3, 9, 16, 26, 34, 41, 46][..6] == [3, 9, 16, 26, 34, 41];
    assert Sum([3, 9, 16, 26, 34, 41, 46]) == 175;
  }
}
