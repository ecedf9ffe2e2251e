/**
 * round_4_to_6_sigfigs (build_website.py:21-37) on exact values.
 *
 * A score is an exact rational (a Dafny `real`). "%.{p}g" % x keeps p significant
 * figures: x is scaled by powers of ten into [10^(p-1), 10^p), rounded to the
 * nearest integer with halves going to the even neighbour, and scaled back.
 * int() of that text fails when "%g" chose exponent notation.
 */
module Rounding {
  import opened Wrappers
  import opened Failures

  /** A Python number in a values list: an int, or a float given by its exact value. */
  datatype Number = Int(i: int) | Float(f: real) {
    function Value(): real {
      match this
      case Int(i) => i as real
      case Float(f) => f
    }
  }

  function Pow10(n: nat): (p: nat)
    ensures p >= 1
  {
    if n == 0 then 1 else 10 * Pow10(n - 1)
  }

  /** The nearest integer to x; of two equally near, the even one. */
  function RoundHalfEven(x: real): (n: int)
    ensures x - 0.5 <= n as real <= x + 0.5
    ensures (x - n as real == 0.5 || n as real - x == 0.5) ==> n % 2 == 0
  {
    var f := x.Floor;
    var d := x - f as real;
    if d < 0.5 then f
    else if d > 0.5 then f + 1
    else if f % 2 == 0 then f
    else f + 1
  }

  /** The two properties above single out the rounded value. */
  lemma RoundHalfEvenUnique(x: real, n: int)
    requires x - 0.5 <= n as real <= x + 0.5
    requires (x - n as real == 0.5 || n as real - x == 0.5) ==> n % 2 == 0
    ensures n == RoundHalfEven(x)
  {
  }

  lemma RoundHalfEvenOfInteger(n: int)
    ensures RoundHalfEven(n as real) == n
  {
    RoundHalfEvenUnique(n as real, n);
  }

  lemma RoundHalfEvenMonotone(x: real, y: real)
    requires x <= y
    ensures RoundHalfEven(x) <= RoundHalfEven(y)
  {
  }

  lemma RoundHalfEvenFrom(n: int, x: real)
    ensures x >= n as real ==> RoundHalfEven(x) >= n
  {
    if x >= n as real {
      RoundHalfEvenMonotone(n as real, x);
      RoundHalfEvenOfInteger(n);
    }
  }

  /** Which way x has to be scaled to hold p digits left of the point. */
  function Side(x: real, p: nat): nat
    requires p >= 1
  {
    if x < 0.0 then 3
    else if 0.0 < x < Pow10(p - 1) as real then 2
    else if x >= Pow10(p) as real then 1
    else 0
  }

  /** How far x still is from the band [10^(p-1), 10^p). */
  function Distance(x: real, p: nat): nat
    requires p >= 1
  {
    if 0.0 < x < Pow10(p - 1) as real then (Pow10(p - 1) as real / x).Floor
    else if x >= Pow10(p) as real then x.Floor
    else 0
  }

  lemma ScaleUpCloser(x: real, p: nat)
    requires p >= 1 && 0.0 < x
    ensures 10.0 * x < Pow10(p - 1) as real ==> Distance(10.0 * x, p) < Distance(x, p)
  {
    if 10.0 * x < Pow10(p - 1) as real {
      FloorOfTenth(Pow10(p - 1) as real, x);
    }
  }

  lemma FloorOfTenth(l: real, x: real)
    requires 0.0 < x && 10.0 * x < l
    ensures (l / (10.0 * x)).Floor < (l / x).Floor
  {
    var y := l / x;
    var z := l / (10.0 * x);
    assert y * x == l;
    assert z * (10.0 * x) == l;
    assert z * 10.0 == y by {
      assert (z * 10.0 - y) * x == 0.0;
    }
    assert y > 10.0 by {
      assert (y - 10.0) * x > 0.0;
    }
  }

  /** The value of "%.{p}g" % x: x rounded to p significant figures. */
  function RoundSig(x: real, p: nat): (r: real)
    requires p >= 1
    ensures x > 0.0 ==> r > 0.0
    ensures x < 0.0 ==> r < 0.0
    ensures x == 0.0 ==> r == 0.0
    decreases Side(x, p), Distance(x, p)
  {
    if x < 0.0 then -RoundSig(-x, p)
    else if x == 0.0 then 0.0
    else if x < Pow10(p - 1) as real then
      ScaleUpCloser(x, p);
      RoundSig(10.0 * x, p) / 10.0
    else if x >= Pow10(p) as real then RoundSig(x / 10.0, p) * 10.0
    else RoundHalfEven(x) as real
  }

  lemma Pow10Values()
    ensures Pow10(3) == 1000 && Pow10(4) == 10000 && Pow10(5) == 100000 && Pow10(6) == 1000000
  {
  }

  /** Scaling by ten commutes with rounding to significant figures. */
  lemma RoundSigScale(y: real, p: nat)
    requires p >= 1 && y > 0.0
    ensures RoundSig(10.0 * y, p) == 10.0 * RoundSig(y, p)
  {
    assert 10.0 * y / 10.0 == y;
  }

  /** x with its decimal point moved j places to the right: x * 10^j. */
  function Shift(x: real, j: nat): real
    decreases j
  {
    if j == 0 then x else Shift(10.0 * x, j - 1)
  }

  lemma {:induction false} ShiftProduct(x: real, j: nat)
    ensures Shift(x, j) == x * Pow10(j) as real
    decreases j
  {
    if j > 0 {
      ShiftProduct(10.0 * x, j - 1);
      var s := Pow10(j - 1) as real;
      assert (10.0 * x) * s == x * (10.0 * s);
    }
  }

  /**
   * Rounding to p figures, moved j places: once x is shifted into [10^(p-1), 10^p), the
   * shifted result is the shifted value rounded half to even.
   */
  lemma {:induction false} RoundSigShift(x: real, p: nat, j: nat)
    requires p >= 1 && Pow10(p - 1) as real <= Shift(x, j) < Pow10(p) as real
    ensures Shift(RoundSig(x, p), j) == RoundHalfEven(Shift(x, j)) as real
    decreases j
  {
    if j > 0 {
      RoundSigShift(10.0 * x, p, j - 1);
      ShiftPositive(x, j);
      RoundSigScale(x, p);
    }
  }

  lemma {:induction false} ShiftPositive(x: real, j: nat)
    requires Shift(x, j) > 0.0
    ensures x > 0.0
    decreases j
  {
    if j > 0 {
      ShiftPositive(10.0 * x, j - 1);
    }
  }

  /** Moving the point right makes a positive value at least ten times larger. */
  lemma {:induction false} ShiftAtLeast(x: real, j: nat)
    requires x > 0.0 && j >= 1
    ensures Shift(x, j) >= 10.0 * x
    decreases j
  {
    if j > 1 {
      ShiftAtLeast(10.0 * x, j - 1);
    }
  }

  /** A value with at least p digits left of the point keeps at least p after rounding. */
  lemma {:induction false} RoundSigAtLeast(x: real, p: nat)
    requires p >= 1 && x >= Pow10(p - 1) as real
    ensures RoundSig(x, p) >= Pow10(p - 1) as real
    ensures x >= Pow10(p) as real ==> RoundSig(x, p) >= Pow10(p) as real
    decreases Distance(x, p)
  {
    if x >= Pow10(p) as real {
      RoundSigAtLeast(x / 10.0, p);
    } else {
      RoundHalfEvenMonotone(Pow10(p - 1) as real, x);
      RoundHalfEvenOfInteger(Pow10(p - 1));
    }
  }

  /** A value with fewer than p digits left of the point rounds to at most 10^(p-1). */
  lemma {:induction false} RoundSigAtMost(x: real, p: nat)
    requires p >= 1 && x < Pow10(p - 1) as real
    ensures RoundSig(x, p) <= Pow10(p - 1) as real
    decreases Side(x, p), Distance(x, p)
  {
    if x > 0.0 {
      ScaleUpCloser(x, p);
      if 10.0 * x < Pow10(p - 1) as real {
        RoundSigAtMost(10.0 * x, p);
      } else {
        RoundHalfEvenMonotone(10.0 * x, Pow10(p) as real);
        RoundHalfEvenOfInteger(Pow10(p));
      }
    }
  }

  /** Rounding an already rounded value changes nothing. */
  lemma {:induction false} RoundSigIdempotent(x: real, p: nat)
    requires p >= 1
    ensures RoundSig(RoundSig(x, p), p) == RoundSig(x, p)
    decreases Side(x, p), Distance(x, p)
  {
    var l := Pow10(p - 1) as real;
    if x < 0.0 {
      RoundSigIdempotent(-x, p);
    } else if x == 0.0 {
    } else if x < l {
      ScaleUpCloser(x, p);
      RoundSigIdempotent(10.0 * x, p);
      var r := RoundSig(10.0 * x, p);
      RoundSigScale(r / 10.0, p);
      assert 10.0 * (r / 10.0) == r;
    } else if x >= Pow10(p) as real {
      RoundSigIdempotent(x / 10.0, p);
      RoundSigScale(RoundSig(x / 10.0, p), p);
    } else {
      var n := RoundHalfEven(x);
      RoundHalfEvenMonotone(l, x);
      RoundHalfEvenMonotone(x, Pow10(p) as real);
      RoundHalfEvenOfInteger(Pow10(p - 1));
      RoundHalfEvenOfInteger(Pow10(p));
      RoundHalfEvenOfInteger(n);
      if n == Pow10(p) {
        assert RoundSig(n as real, p) == RoundSig(l, p) * 10.0;
      }
    }
  }

  /** Four significant figures are within half a unit of the fourth figure: a relative error of 1/2000. */
  lemma {:induction false} RoundSig4Error(x: real)
    requires x > 0.0
    ensures -x <= 2000.0 * (RoundSig(x, 4) - x) <= x
    decreases Side(x, 4), Distance(x, 4)
  {
    Pow10Values();
    if x < 1000.0 {
      ScaleUpCloser(x, 4);
      RoundSig4Error(10.0 * x);
    } else if x >= 10000.0 {
      RoundSig4Error(x / 10.0);
    }
  }

  /** Whether rounding x to an integer stays short of the next power of ten of its tier. */
  predicate NoCarry(x: real) {
    && (x < 10000.0 ==> RoundHalfEven(x) < 10000)
    && (x < 100000.0 ==> RoundHalfEven(x) < 100000)
    && RoundHalfEven(x) < 1000000
  }

  /**
   * int("%.{p}g" % x) for x with at least p - 1 digits left of the point: "%g" writes
   * the rounded value in fixed notation only while it stays below 10^p.
   */
  function IntegerFigures(x: real, p: nat): (r: Result<Number, Error>)
    requires p >= 1 && x >= Pow10(p - 1) as real
    ensures r.Success? <==> RoundHalfEven(x) < Pow10(p)
    ensures r.Success? ==> r.value == Int(RoundHalfEven(x))
  {
    RoundSigAtLeast(x, p);
    RoundHalfEvenFrom(Pow10(p), x);
    var y := RoundSig(x, p);
    if y < Pow10(p) as real then Success(Int(y.Floor)) else Failure(ValueError)
  }

  /**
   * round_4_to_6_sigfigs: 6, 5 or 4 significant figures as an int from 10^5, 10^4 and
   * 10^3 up, 4 significant figures as a float below. Each integer tier keeps exactly
   * the digits left of the point, so from 10^3 on the result is the nearest integer,
   * unless the rounding carries into exponent notation ("1e+04") and int() fails.
   */
  function RoundSigFigs(x: real): (r: Result<Number, Error>)
    ensures x < 1000.0 ==> r == Success(Float(RoundSig(x, 4)))
    ensures x >= 1000.0 ==> (r.Success? <==> NoCarry(x))
    ensures x >= 1000.0 && r.Success? ==> r.value == Int(RoundHalfEven(x))
  {
    Pow10Values();
    if x >= 100000.0 then IntegerFigures(x, 6)
    else if x >= 10000.0 then IntegerFigures(x, 5)
    else if x >= 1000.0 then IntegerFigures(x, 4)
    else Success(Float(RoundSig(x, 4)))
  }

  /** A rounded score is within half a unit of the exact one. */
  lemma RoundSigFigsError(x: real)
    requires x >= 0.0 && RoundSigFigs(x).Success?
    ensures x - 0.5 <= RoundSigFigs(x).value.Value() <= x + 0.5
  {
    if 0.0 < x < 1000.0 {
      RoundSig4Error(x);
    }
  }

  /**
   * Below 10^3 the float branch is "%.4g": with x moved j >= 1 places into [10^3, 10^4),
   * the result moved the same j places is the moved x rounded half to even.
   */
  lemma RoundSigFigsFloat(x: real, j: nat)
    requires j >= 1 && 1000.0 <= Shift(x, j) < 10000.0
    ensures RoundSigFigs(x).Success? && RoundSigFigs(x).value.Float?
    ensures Shift(RoundSigFigs(x).value.f, j) == RoundHalfEven(Shift(x, j)) as real
  {
    Pow10Values();
    ShiftPositive(x, j);
    ShiftAtLeast(x, j);
    RoundSigShift(x, 4, j);
  }

  /** Rounding never makes a non-negative score negative. */
  lemma RoundSigFigsNonNegative(x: real)
    requires x >= 0.0 && RoundSigFigs(x).Success?
    ensures RoundSigFigs(x).value.Value() >= 0.0
  {
    Pow10Values();
    RoundHalfEvenFrom(1000, x);
  }

  /** Rounding a rounded score gives the same number again (999.96 -> 1000.0 -> 1000 compare equal). */
  lemma RoundSigFigsIdempotent(x: real)
    requires RoundSigFigs(x).Success?
    ensures var v := RoundSigFigs(x).value.Value();
      RoundSigFigs(v).Success? && RoundSigFigs(v).value.Value() == v
  {
    var v := RoundSigFigs(x).value.Value();
    if x >= 1000.0 {
      var n := RoundHalfEven(x);
      RoundHalfEvenMonotone(1000.0, x);
      RoundHalfEvenOfInteger(1000);
      RoundHalfEvenOfInteger(n);
      assert v == n as real;
    } else {
      Pow10Values();
      RoundSigAtMost(x, 4);
      RoundSigIdempotent(x, 4);
      if v == 1000.0 {
        RoundHalfEvenOfInteger(1000);
      }
    }
  }

  /** The boundary cases: 123456 keeps all six figures; a carry or 10^6 and above fails. */
  lemma RoundSigFigsExamples()
    ensures RoundSigFigs(99999.0) == Success(Int(99999))
    ensures RoundSigFigs(123456.0) == Success(Int(123456))
    ensures RoundSigFigs(790663.0) == Success(Int(790663))
    ensures RoundSigFigs(395331.5) == Success(Int(395332))
    ensures RoundSigFigs(999.9) == Success(Float(999.9))
    ensures RoundSigFigs(0.01234) == Success(Float(0.01234))
    ensures RoundSigFigs(9999.6) == Failure(ValueError)
    ensures RoundSigFigs(1234567.0) == Failure(ValueError)
  {
    RoundHalfEvenOfInteger(99999);
    RoundHalfEvenOfInteger(123456);
    RoundHalfEvenOfInteger(790663);
    Pow10Values();
    assert RoundSig(999.9, 4) == RoundSig(9999.0, 4) / 10.0;
    RoundHalfEvenOfInteger(9999);
    assert RoundSig(12.34, 4) == RoundSig(123.4, 4) / 10.0 == RoundSig(1234.0, 4) / 100.0;
    RoundHalfEvenOfInteger(1234);
    assert RoundSig(0.01234, 4) == RoundSig(0.1234, 4) / 10.0 == RoundSig(1.234, 4) / 100.0;
    assert RoundSig(1.234, 4) == RoundSig(12.34, 4) / 10.0;
  }
}
