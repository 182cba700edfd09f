/** Rounding to 32-bit floating point numbers: 24 significant bits, to nearest, ties to even. The
    range of exponents is not bounded; what is rounded here lies well inside it. */
module Float32 {
  const LEAST_SIGNIFICAND := 0x80_0000 as real
  const SIGNIFICANDS := 0x100_0000 as real

  /** The nearest integer; halfway between two, the even one. */
  function Nearest(x: real): int {
    var below := x.Floor;
    var rest := x - below as real;
    if rest < 0.5 || (rest == 0.5 && below % 2 == 0) then below else below + 1
  }

  /** How far `x` is from 24 whole digits. */
  function Distance(x: real): nat
    requires x > 0.0
  {
    if x >= SIGNIFICANDS then x.Floor
    else if x >= LEAST_SIGNIFICAND then 0
    else
      Ratio(x);
      (SIGNIFICANDS / x).Floor
  }

  lemma {:induction false} Ratio(x: real)
    requires 0.0 < x < LEAST_SIGNIFICAND
    ensures SIGNIFICANDS / x >= 2.0 && SIGNIFICANDS / (2.0 * x) == SIGNIFICANDS / x / 2.0
  {
    var ratio := SIGNIFICANDS / x;
    assert ratio * x == SIGNIFICANDS;
    assert ratio / 2.0 * (2.0 * x) == SIGNIFICANDS;
  }

  lemma {:induction false} DistanceShrinks(x: real)
    requires x > 0.0
    ensures x >= SIGNIFICANDS ==> Distance(x / 2.0) < Distance(x)
    ensures x < LEAST_SIGNIFICAND ==> Distance(2.0 * x) < Distance(x)
  {
    if x < LEAST_SIGNIFICAND {
      Ratio(x);
    }
  }

  /** Shift until 24 digits are whole, round, and shift back. */
  function RoundPositive(x: real): real
    requires x > 0.0
    decreases Distance(x)
  {
    DistanceShrinks(x);
    if x >= SIGNIFICANDS then 2.0 * RoundPositive(x / 2.0)
    else if x < LEAST_SIGNIFICAND then RoundPositive(2.0 * x) / 2.0
    else Nearest(x) as real
  }

  function Round(x: real): real {
    if x == 0.0 then 0.0 else if x < 0.0 then -RoundPositive(-x) else RoundPositive(x)
  }

  function Times(a: real, b: real): real { Round(a * b) }

  // ---------- laws ----------

  lemma {:induction false} NearestGrows(a: real, b: real)
    requires a <= b
    ensures Nearest(a) <= Nearest(b)
  {
    if a.Floor < b.Floor {
      assert Nearest(a) <= a.Floor + 1 <= b.Floor <= Nearest(b);
    }
  }

  lemma {:induction false} NearestIsExact(n: int)
    ensures Nearest(n as real) == n
  {
  }

  /** Powers of two do not matter. */
  lemma {:induction false} RoundDoubles(x: real)
    requires x > 0.0
    ensures RoundPositive(2.0 * x) == 2.0 * RoundPositive(x)
  {
  }

  lemma {:induction false} RoundHalves(x: real)
    requires x > 0.0
    ensures RoundPositive(x) == 2.0 * RoundPositive(x / 2.0)
  {
    RoundDoubles(x / 2.0);
  }

  /** Numbers of 24 whole digits round to themselves or up to the next power of two. */
  lemma {:induction false} RoundMiddle(x: real)
    requires LEAST_SIGNIFICAND <= x < SIGNIFICANDS
    ensures RoundPositive(x) == Nearest(x) as real && LEAST_SIGNIFICAND <= RoundPositive(x) <= SIGNIFICANDS
  {
    NearestGrows(LEAST_SIGNIFICAND, x);
    NearestGrows(x, SIGNIFICANDS);
    NearestIsExact(0x80_0000);
    NearestIsExact(0x100_0000);
  }

  lemma {:induction false} RoundSmall(x: real)
    requires 0.0 < x < LEAST_SIGNIFICAND
    ensures 0.0 < RoundPositive(x) <= LEAST_SIGNIFICAND
    decreases Distance(x)
  {
    DistanceShrinks(x);
    RoundDoubles(x);
    if 2.0 * x < LEAST_SIGNIFICAND {
      RoundSmall(2.0 * x);
    } else {
      RoundMiddle(2.0 * x);
    }
  }

  lemma {:induction false} RoundPositiveGrows(a: real, b: real)
    requires 0.0 < a <= b
    ensures 0.0 < RoundPositive(a) <= RoundPositive(b)
    decreases Distance(b)
  {
    DistanceShrinks(b);
    if b >= SIGNIFICANDS {
      RoundHalves(a);
      RoundHalves(b);
      RoundPositiveGrows(a / 2.0, b / 2.0);
    } else if b < LEAST_SIGNIFICAND {
      RoundDoubles(a);
      RoundDoubles(b);
      RoundPositiveGrows(2.0 * a, 2.0 * b);
    } else {
      RoundMiddle(b);
      if a < LEAST_SIGNIFICAND {
        RoundSmall(a);
      } else {
        RoundMiddle(a);
        NearestGrows(a, b);
      }
    }
  }

  /** Rounding keeps order. */
  lemma {:induction false} RoundGrows(a: real, b: real)
    requires 0.0 <= a <= b
    ensures 0.0 <= Round(a) <= Round(b)
  {
    if a > 0.0 {
      RoundPositiveGrows(a, b);
    } else if b > 0.0 {
      RoundPositiveGrows(b, b);
    }
  }

  /** Whole numbers up to 2^24 are floating point numbers. */
  lemma {:induction false} WholeNumbersAreExact(n: nat)
    requires n as real <= SIGNIFICANDS
    ensures Round(n as real) == n as real
    decreases if n == 0 then 0 else Distance(n as real)
  {
    if n != 0 {
      var x := n as real;
      DistanceShrinks(x);
      if x == SIGNIFICANDS {
        RoundHalves(x);
        NearestIsExact(0x80_0000);
      } else if x < LEAST_SIGNIFICAND {
        RoundDoubles(x);
        assert (2 * n) as real == 2.0 * x;
        WholeNumbersAreExact(2 * n);
      } else {
        NearestIsExact(n);
      }
    }
  }

  lemma {:induction false} RoundPositiveTwice(x: real)
    requires x > 0.0
    ensures RoundPositive(x) > 0.0 && RoundPositive(RoundPositive(x)) == RoundPositive(x)
    decreases Distance(x)
  {
    DistanceShrinks(x);
    if x >= SIGNIFICANDS {
      RoundHalves(x);
      RoundPositiveTwice(x / 2.0);
      RoundDoubles(RoundPositive(x / 2.0));
    } else if x < LEAST_SIGNIFICAND {
      RoundDoubles(x);
      RoundPositiveTwice(2.0 * x);
      RoundHalves(RoundPositive(2.0 * x));
    } else {
      RoundMiddle(x);
      WholeNumbersAreExact(Nearest(x));
    }
  }

  /** What is rounded already stays as it is. */
  lemma {:induction false} RoundTwice(x: real)
    requires x >= 0.0
    ensures Round(Round(x)) == Round(x)
  {
    if x > 0.0 {
      RoundPositiveTwice(x);
    }
  }

  /** Shares of a number grow with the share, from nothing to all of it. */
  lemma {:induction false} TimesWithin(s: real, t: real, whole: real)
    requires 0.0 <= s <= t <= 1.0 && whole >= 0.0 && Round(whole) == whole
    ensures 0.0 <= Times(s, whole) <= Times(t, whole) <= whole
    ensures Times(0.0, whole) == 0.0 && Times(1.0, whole) == whole
  {
    hide Round;
    assert 0.0 <= s * whole <= t * whole <= whole;
    WholeNumbersAreExact(0);
    RoundGrows(s * whole, t * whole);
    RoundGrows(t * whole, whole);
  }
}
