/** The parity word of `entropy_seed`: each main number contributes one binary
    digit, '1' when odd, in draw order, and the digit string is read in base 2. */
module Parity {
  import opened Wrappers
  import opened PyInt

  function Pow2(n: nat): (p: nat)
    ensures p >= 1
  {
    if n == 0 then 1 else 2 * Pow2(n - 1)
  }

  /** Bit `j` of `x`, counting from the least significant bit. */
  function Bit(x: nat, j: nat): nat
  {
    (x / Pow2(j)) % 2
  }

  predicate IsBinary(s: string)
  {
    forall i :: 0 <= i < |s| ==> s[i] == '0' || s[i] == '1'
  }

  function DigitValue(c: char): nat
  {
    if c == '1' then 1 else 0
  }

  /** The base-2 value of a digit string, read left to right
      (the most significant digit first). */
  function BinaryValue(s: string): (v: nat)
    requires IsBinary(s)
    ensures v < Pow2(|s|)
  {
    if |s| == 0 then 0
    else 2 * BinaryValue(s[..|s| - 1]) + DigitValue(s[|s| - 1])
  }

  /** `int(s, 2)` on a string of binary digits: Python raises ValueError on the
      empty string, and otherwise returns its base-2 value. */
  function ParseBase2(s: string): (r: Option<nat>)
    requires IsBinary(s)
    ensures r.None? <==> |s| == 0
  {
    if |s| == 0 then None else Some(BinaryValue(s))
  }

  /** `"".join('1' if n % 2 else '0' for n in mains)`. Python's `n % 2` with a
      positive modulus agrees with Dafny's, also for negative `n`. */
  function ParityDigits(mains: seq<int>): (s: string)
    ensures |s| == |mains| && IsBinary(s)
    ensures forall i :: 0 <= i < |mains| ==> (s[i] == '1' <==> mains[i] % 2 == 1)
  {
    seq(|mains|, i requires 0 <= i < |mains| => if mains[i] % 2 != 0 then '1' else '0')
  }

  /** The parity word of line 117: `int(ParityDigits(mains), 2)`. */
  function ParityWord(mains: seq<int>): (r: Option<nat>)
    ensures r.None? <==> |mains| == 0
    ensures r.Some? ==> r.value < Pow2(|mains|)
  {
    ParseBase2(ParityDigits(mains))
  }

  /** Appending one digit doubles the value of the prefix and adds the digit:
      `(2x + b) / 2^(j+1) == x / 2^j`, so bit `j + 1` of `2x + b` is bit `j` of `x`. */
  lemma ShiftedBit(x: nat, b: nat, j: nat)
    requires b < 2
    ensures Bit(2 * x + b, j + 1) == Bit(x, j)
    ensures Bit(2 * x + b, 0) == b
  {
    var p := Pow2(j);
    var q := x / p;
    var r := x % p;
    assert x == q * p + r;
    assert 2 * x + b == q * (2 * p) + (2 * r + b);
    assert 0 <= 2 * r + b < 2 * p;
    DivOfDecomposition(2 * x + b, q, 2 * r + b, 2 * p);
  }

  /** If `y = q * d + e` with `0 <= e < d`, then `y / d == q`. */
  lemma DivOfDecomposition(y: int, q: int, e: int, d: int)
    requires d > 0 && 0 <= e < d && y == q * d + e
    ensures y / d == q
  {
    var k := y / d;
    assert (q - k) * d == y % d - e;
    MulSign(q - k, d);
  }

  /** Digit `i` of a binary string (from the left) is bit `|s| - 1 - i` of its value. */
  lemma {:induction false} BinaryValueBits(s: string)
    requires IsBinary(s)
    ensures forall i :: 0 <= i < |s| ==> Bit(BinaryValue(s), |s| - 1 - i) == DigitValue(s[i])
  {
    if |s| > 0 {
      var n := |s|;
      var pre := s[..n - 1];
      assert IsBinary(pre);
      BinaryValueBits(pre);
      var x := BinaryValue(pre);
      var b := DigitValue(s[n - 1]);
      forall i | 0 <= i < n
        ensures Bit(BinaryValue(s), n - 1 - i) == DigitValue(s[i])
      {
        if i < n - 1 {
          ShiftedBit(x, b, n - 2 - i);
          assert pre[i] == s[i];
        } else {
          ShiftedBit(x, b, 0);
        }
      }
    }
  }

  /** Bit `|mains| - 1 - i` of the parity word is 1 exactly when `mains[i]` is odd. */
  lemma ParityWordBits(mains: seq<int>)
    requires |mains| > 0
    ensures forall i :: 0 <= i < |mains| ==> Bit(ParityWord(mains).value, |mains| - 1 - i) == mains[i] % 2
  {
    var s := ParityDigits(mains);
    BinaryValueBits(s);
    assert forall i :: 0 <= i < |mains| ==> DigitValue(s[i]) == mains[i] % 2;
  }

  /** The draw 3, 9, 16, 26, 34, 41, 46 has parities 1100010, which is 98. */
  lemma ParityWordOfDemoDraw()
    ensures ParityWord([3, 9, 16, 26, 34, 41, 46]) == Some(98)
  {
    var s := ParityDigits([3, 9, 16, 26, 34, 41, 46]);
    assert s == "1100010";
    assert BinaryValue("1") == 1;
    assert "11"[..1] == "1";
    assert BinaryValue("11") == 3;
    assert "110"[..2] == "11";
    assert BinaryValue("110") == 6;
    assert "1100"[..3] == "110";
    assert BinaryValue("1100") == 12;
    assert "11000"[..4] == "1100";
    assert BinaryValue("11000") == 24;
    assert "110001"[..5] == "11000";
    assert BinaryValue("110001") == 49;
    assert "1100010"[..6] == "110001";
    assert BinaryValue("1100010") == 98;
  }

  /** The parity word computed in one left-to-right pass, `acc * 2 + n % 2`,
      as Python's `int(..., 2)` does on the digit string. */
  method ComputeParityWord(mains: seq<int>) returns (p: nat)
    requires |mains| > 0
    ensures ParityWord(mains) == Some(p)
    ensures p < Pow2(|mains|)
    ensures forall i :: 0 <= i < |mains| ==> Bit(p, |mains| - 1 - i) == mains[i] % 2
  {
    ghost var digits := ParityDigits(mains);
    p := 0;
    var k := 0;
    while k < |mains|
      invariant 0 <= k <= |mains|
      invariant p == BinaryValue(digits[..k])
    {
      assert digits[..k + 1][..k] == digits[..k];
      p := p * 2 + mains[k] % 2;
      k := k + 1;
    }
    assert digits[..k] == digits;
    ParityWordBits(mains);
  }
}
