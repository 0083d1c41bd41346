/** The 1-based "ring" helpers of the predictor: `circ_dist`, `map_to_ring`,
    and the `x % ring or ring` pattern that the bonus derivation uses. */
module Ring {
  import opened PyInt

  // ---------------------------------------------------------------------------
  // circ_dist
  // ---------------------------------------------------------------------------

  /** `circ_dist(a, b, ring)`: `d = abs(a - b) % ring`, then `min(d, ring - d)`.
      On a positive ring the result is at most half the ring. */
  function CircDist(a: int, b: int, ring: int): (r: int)
    requires ring != 0
    ensures ring > 0 ==> 0 <= r && 2 * r <= ring
  {
    var d := Mod(Abs(a - b), ring);
    if d <= ring - d then d else ring - d
  }

  /** Walking `t` steps from `b`, one way round the ring or the other, lands on `a`. */
  predicate Reaches(b: int, a: int, t: int, ring: int)
    requires ring > 0
  {
    (a - b - t) % ring == 0 || (a - b + t) % ring == 0
  }

  /** `circ_dist` is the length of the shortest walk between the two positions:
      the walk of that length exists, and no shorter one does. */
  lemma CircDistIsShortestWalk(a: int, b: int, ring: int)
    requires ring > 0
    ensures Reaches(b, a, CircDist(a, b, ring), ring)
    ensures forall t :: 0 <= t && Reaches(b, a, t, ring) ==> CircDist(a, b, ring) <= t
  {
    var x := a - b;
    var d := Abs(x) % ring;
    var r := CircDist(a, b, ring);
    RemainderCongruent(Abs(x), ring);
    // Up to orientation, `x` is congruent to `d`, and `-x` to `ring - d`.
    var y := if x >= 0 then x else -x;
    assert (y - d) % ring == 0;
    assert (-y - (ring - d)) % ring == 0 by {
      assert -y - (ring - d) == -(y - d) - ring;
      NegateMultiple(y - d, ring);
      ShiftMultiple(-(y - d), -1, ring);
    }
    assert r == d || r == ring - d;
    forall t | 0 <= t && Reaches(b, a, t, ring)
      ensures r <= t
    {
      WalkLength(x, y, d, t, ring);
    }
    if r == d {
      if x >= 0 {
        assert (x - r) % ring == 0;
      } else {
        assert x + r == -(y - d);
        NegateMultiple(y - d, ring);
      }
    } else {
      if x >= 0 {
        assert x + r == -(-y - (ring - d));
        NegateMultiple(-y - (ring - d), ring);
      } else {
        assert (x - r) % ring == 0;
      }
    }
  }

  /** A walk of length `t` in `[0, ring)` from `b` to `a` is either `d` or `ring - d` long. */
  lemma WalkLength(x: int, y: int, d: int, t: int, ring: int)
    requires ring > 0 && 0 <= d < ring && 0 <= t
    requires y == x || y == -x
    requires (y - d) % ring == 0 && (-y - (ring - d)) % ring == 0
    requires (x - t) % ring == 0 || (x + t) % ring == 0
    ensures d <= t || ring - d <= t || d == 0
  {
    // `t` is congruent to `y` or to `-y`.
    assert (y - t) % ring == 0 || (-y - t) % ring == 0 by {
      if (x - t) % ring != 0 {
        NegateMultiple(x + t, ring);
        assert -x - t == -(x + t);
      }
    }
    if t < ring {
      if (y - t) % ring == 0 {
        DiffCongruent(y, t, d, ring);
        CongruentInWindow(t, d, 0, ring);
      } else if d > 0 {
        DiffCongruent(-y, t, ring - d, ring);
        CongruentInWindow(t, ring - d, 0, ring);
      }
    }
  }

  /** `circ_dist` does not depend on the order of its two positions. */
  lemma CircDistSymmetric(a: int, b: int, ring: int)
    requires ring != 0
    ensures CircDist(a, b, ring) == CircDist(b, a, ring)
  {
    assert Abs(a - b) == Abs(b - a);
  }

  /** On a positive ring, the distance is zero exactly when the positions coincide modulo `ring`. */
  lemma CircDistZeroIff(a: int, b: int, ring: int)
    requires ring > 0
    ensures CircDist(a, b, ring) == 0 <==> (a - b) % ring == 0
    ensures CircDist(a, a, ring) == 0
  {
    CircDistIsShortestWalk(a, b, ring);
    if (a - b) % ring == 0 {
      assert Reaches(b, a, 0, ring);
    }
    assert (a - a) % ring == 0;
    CircDistIsShortestWalk(a, a, ring);
    assert Reaches(a, a, 0, ring);
  }

  // ---------------------------------------------------------------------------
  // map_to_ring
  // ---------------------------------------------------------------------------

  /** `map_to_ring(v, ring)`: `r = v % (ring + 1)`, and `ring` when `r == 0`.
      Note the modulus is `ring + 1`, not `ring`. */
  function MapToRing(v: int, ring: int): (r: int)
    requires ring != -1
    ensures ring >= 1 ==> 1 <= r <= ring
    ensures ring == 0 ==> r == 0
    ensures ring < -1 ==> ring <= r <= -1
  {
    var m := Mod(v, ring + 1);
    if m == 0 then ring else m
  }

  /** `map_to_ring` leaves every position already on the ring where it is. */
  lemma MapToRingFixesRing(v: int, ring: int)
    requires 1 <= v <= ring
    ensures MapToRing(v, ring) == v
  {}

  /** Every multiple of `ring + 1`, including 0 and `ring + 1`, is sent to `ring`. */
  lemma MapToRingOfMultiple(v: int, ring: int)
    requires ring >= 1
    requires v % (ring + 1) == 0
    ensures MapToRing(v, ring) == ring
  {
    ModUnique(v, ring + 1, 0);
  }

  /** `map_to_ring` repeats with period `ring + 1`. */
  lemma MapToRingPeriodic(v: int, ring: int)
    requires ring != -1
    ensures MapToRing(v + (ring + 1), ring) == MapToRing(v, ring)
  {
    var n := Abs(ring + 1);
    var m := Mod(v, ring + 1);
    assert (v + (ring + 1) - m) % n == 0 by {
      ShiftMultiple(v - m, if ring + 1 > 0 then 1 else -1, n);
    }
    ModUnique(v + (ring + 1), ring + 1, m);
  }

  /** Off the multiples of `ring + 1`, the result is congruent to `v` modulo `ring + 1`;
      on them it is `ring`, which is not, so the map is not a reduction modulo anything. */
  lemma MapToRingCongruence(v: int, ring: int)
    requires ring >= 1
    ensures v % (ring + 1) != 0 ==> (v - MapToRing(v, ring)) % (ring + 1) == 0
    ensures v % (ring + 1) == 0 ==> (v - MapToRing(v, ring)) % (ring + 1) == 1
  {
    if v % (ring + 1) == 0 {
      MapToRingOfMultiple(v, ring);
      assert v - ring == (v / (ring + 1) - 1) * (ring + 1) + 1;
      LinearMod(v / (ring + 1) - 1, ring + 1, 1);
    }
  }

  /** On a positive ring, `ring + 1` maps to `ring`, not to 1; from a ring of two on,
      `ring` thus has two pre-images in each period (0 and `ring`). */
  lemma MapToRingCollision(ring: int)
    requires ring >= 1
    ensures MapToRing(0, ring) == ring && MapToRing(ring, ring) == ring
    ensures MapToRing(ring + 1, ring) == ring
  {
    MapToRingOfMultiple(0, ring);
    MapToRingFixesRing(ring, ring);
    assert (ring + 1) % (ring + 1) == 0;
    MapToRingOfMultiple(ring + 1, ring);
  }

  // ---------------------------------------------------------------------------
  // `x % ring or ring`
  // ---------------------------------------------------------------------------

  /** Python's `x % ring or ring`: reduce modulo `ring`, and use `ring` in place of 0.
      The result is never 0 and is congruent to `v` modulo `ring`. */
  function Wrap(v: int, ring: int): (r: int)
    requires ring != 0
    ensures r != 0
    ensures ring > 0 ==> 1 <= r <= ring
    ensures ring < 0 ==> ring <= r <= -1
    ensures (v - r) % Abs(ring) == 0
  {
    var m := Mod(v, ring);
    ShiftMultiple(v - m, if ring > 0 then -1 else 1, Abs(ring));
    if m == 0 then ring else m
  }

  /** `Wrap(v, ring)` is the only value of its window congruent to `v`. */
  lemma WrapUnique(v: int, ring: int, r: int)
    requires ring != 0
    requires ring > 0 ==> 1 <= r <= ring
    requires ring < 0 ==> ring <= r <= -1
    requires (v - r) % Abs(ring) == 0
    ensures r == Wrap(v, ring)
  {
    var w := Wrap(v, ring);
    DiffCongruent(v, r, w, Abs(ring));
    if ring > 0 {
      CongruentInWindow(r, w, 1, ring);
    } else {
      CongruentInWindow(r, w, ring, -ring);
    }
  }

  /** Wrapping an intermediate result and wrapping once at the end agree. */
  lemma WrapTwice(a: int, b: int, ring: int)
    requires ring != 0
    ensures Wrap(Wrap(a, ring) + b, ring) == Wrap(a + b, ring)
  {
    var n := Abs(ring);
    var w := Wrap(a, ring);
    var u := Wrap(w + b, ring);
    assert (a + b - u) % n == 0 by {
      assert a + b - u == (a - w) + (w + b - u);
      SumOfMultiples(a - w, w + b - u, n);
    }
    WrapUnique(a + b, ring, u);
  }

  /** The bonus pattern and `map_to_ring` disagree: on a ring of 50, 51 wraps to 1
      but `map_to_ring` sends it to 50. */
  lemma WrapIsNotMapToRing()
    ensures Wrap(51, 50) == 1
    ensures MapToRing(51, 50) == 50
  {
    MapToRingCollision(50);
    WrapUnique(51, 50, 1);
  }
}
