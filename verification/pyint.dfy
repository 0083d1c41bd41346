/** Python integer operators whose semantics differ from Dafny's built-ins. */
module PyInt {

  /** Python's `abs` on an integer: the larger of `x` and `-x`. */
  function Abs(x: int): (r: nat)
    ensures r == x || r == -x
    ensures x <= r && -x <= r
  {
    if x < 0 then -x else x
  }

  /** `sys.maxsize` on a 64-bit CPython build: the largest length `len` can return;
      a longer `range` makes `len` raise OverflowError. */
  const MaxSize: int := 0x7FFF_FFFF_FFFF_FFFF

  /** The longest list CPython will allocate: `PyMem_New` refuses more than
      `sys.maxsize // 8` pointers on a 64-bit build, and Python raises MemoryError. */
  const MaxListLength: int := MaxSize / 8

  /** `2^1024 - 2^970`, the halfway point between the largest finite double
      `(2^53 - 1) * 2^971` and `2^1024`. Converting an int to float rounds to nearest,
      ties to even, so from this magnitude on the result would be `2^1024` and Python
      raises OverflowError instead. */
  const FloatOverflowBound: int := 0xfffffffffffffc00000000000000000000000000000000000000000000000000000000000000000000000000000000000000000000000000000000000000000000000000000000000000000000000000000000000000000000000000000000000000000000000000000000000000000000000000000000000000000000000000

  /** Whether `float(n)` succeeds for the Python int `n`. */
  predicate ConvertsToFloat(n: int)
  {
    Abs(n) < FloatOverflowBound
  }

  /** Python's `a % m`: floor division, so the result has the sign of `m`.
      Dafny's `%` is Euclidean (never negative); the two agree for `m > 0`.
      `m == 0` raises ZeroDivisionError in Python, hence the precondition. */
  function Mod(a: int, m: int): (r: int)
    requires m != 0
    ensures m > 0 ==> 0 <= r < m
    ensures m < 0 ==> m < r <= 0
    ensures (a - r) % Abs(m) == 0
  {
    RemainderCongruent(a, Abs(m));
    if m > 0 then a % m
    else
      var e := a % -m;
      if e == 0 then 0 else e + m
  }

  /** Subtracting the remainder, or the remainder less one modulus, leaves a multiple. */
  lemma RemainderCongruent(a: int, n: int)
    requires n > 0
    ensures (a - a % n) % n == 0
    ensures (a - (a % n - n)) % n == 0
  {
    assert a - a % n == (a / n) * n;
    MultipleMod(a / n, n);
    assert a - (a % n - n) == (a / n + 1) * n;
    MultipleMod(a / n + 1, n);
  }

  /** A non-zero multiple of `n` is at least `n` away from zero. */
  lemma MulSign(q: int, n: int)
    requires n > 0
    ensures q >= 1 ==> q * n >= n
    ensures q <= -1 ==> q * n <= -n
  {}

  /** Every multiple of `n` leaves remainder 0. */
  lemma MultipleMod(k: int, n: int)
    requires n > 0
    ensures (k * n) % n == 0
  {
    var q := (k * n) / n;
    var r := (k * n) % n;
    assert (k - q) * n == r;
    MulSign(k - q, n);
  }

  /** Two integers in the same window of width `m` that are congruent modulo `m` are equal. */
  lemma CongruentInWindow(x: int, y: int, lo: int, m: int)
    requires m > 0
    requires lo <= x < lo + m && lo <= y < lo + m
    requires (x - y) % m == 0
    ensures x == y
  {
    var q := (x - y) / m;
    assert x - y == q * m;
    MulSign(q, m);
  }

  /** Congruence modulo a positive `m` is transitive through a common value `a`. */
  lemma DiffCongruent(a: int, x: int, y: int, m: int)
    requires m > 0
    requires (a - x) % m == 0 && (a - y) % m == 0
    ensures (x - y) % m == 0
  {
    var p := (a - x) / m;
    var q := (a - y) / m;
    assert x - y == (q - p) * m;
    MultipleMod(q - p, m);
  }

  /** Python's `%` is the unique remainder in its window that is congruent to `a`:
      any candidate with the same two properties is `Mod(a, m)`. */
  lemma ModUnique(a: int, m: int, r: int)
    requires m != 0
    requires m > 0 ==> 0 <= r < m
    requires m < 0 ==> m < r <= 0
    requires (a - r) % Abs(m) == 0
    ensures r == Mod(a, m)
  {
    var r' := Mod(a, m);
    DiffCongruent(a, r, r', Abs(m));
    if m > 0 {
      CongruentInWindow(r, r', 0, m);
    } else {
      CongruentInWindow(r, r', m + 1, -m);
    }
  }

  /** The negation of a multiple is a multiple. */
  lemma NegateMultiple(x: int, n: int)
    requires n > 0 && x % n == 0
    ensures (-x) % n == 0
  {
    assert x == (x / n) * n;
    assert -x == (-(x / n)) * n;
    MultipleMod(-(x / n), n);
  }

  /** Adding whole moduli to a multiple keeps it a multiple. */
  lemma ShiftMultiple(x: int, k: int, n: int)
    requires n > 0 && x % n == 0
    ensures (x + k * n) % n == 0
  {
    assert x + k * n == (x / n + k) * n;
    MultipleMod(x / n + k, n);
  }

  /** `q * n + c` leaves remainder `c` when `0 <= c < n`. */
  lemma LinearMod(q: int, n: int, c: int)
    requires 0 <= c < n
    ensures (q * n + c) % n == c
  {
    MultipleMod(q, n);
    var k := (q * n + c) / n;
    var e := (q * n + c) % n;
    assert (q - k) * n == e - c;
    MulSign(q - k, n);
  }

  /** The sum of two multiples is a multiple. */
  lemma SumOfMultiples(x: int, y: int, n: int)
    requires n > 0 && x % n == 0 && y % n == 0
    ensures (x + y) % n == 0
  {
    assert x + y == (x / n + y / n) * n;
    MultipleMod(x / n + y / n, n);
  }
}
