/** The digits ECMA-262 section 7.1.12.1 and Python's repr select for a binary64 magnitude:
    the fewest that round back to it, of those the closest, of two such the even one. */
module Shortest {
  import opened Powers
  import opened Wrappers
  import opened Decimal
  import opened Binary64

  ghost predicate RoundTrips(x: Magnitude, d: nat, q: int) {
    0 < d && Round(Dec(d, q)) == Some(x)
  }

  ghost function Error(x: Magnitude, d: nat, q: int): real {
    Abs(Dec(d, q) - x.Value())
  }

  /** No decimal of the same length that rounds to x beats d * 10^q. */
  ghost predicate Preferred(x: Magnitude, d: nat, q: int, d': nat, q': int) {
    || Error(x, d, q) < Error(x, d', q')
    || (Error(x, d, q) == Error(x, d', q') && (Dec(d, q) == Dec(d', q') || d % 2 == 0))
  }

  ghost predicate IsShortest(x: Magnitude, d: nat, q: int) {
    && RoundTrips(x, d, q)
    && (forall d', q' | RoundTrips(x, d', q') :: Size(d) <= Size(d'))
    && (forall d', q' | RoundTrips(x, d', q') && Size(d') == Size(d) :: Preferred(x, d, q, d', q'))
  }

  // ---------- the contract determines the digits ----------

  /** Equal decimals of equal length are written alike. */
  lemma SameDecimal(d: nat, q: int, d': nat, q': int)
    requires 0 < d && 0 < d' && Size(d) == Size(d') && Dec(d, q) == Dec(d', q')
    ensures d == d' && q == q'
  {
    DecDecade(d, q);
    DecDecade(d', q');
    if q < q' { SameDecade(Size(d) + q, Size(d') + q' - 1); }
    if q' < q { SameDecade(Size(d') + q', Size(d) + q - 1); }
    DecOrder(d, d', q);
  }

  lemma SameDecade(i: int, j: int)
    requires i <= j
    ensures Dec(1, i) <= Dec(1, j)
  {
    if i < j { DecadeOrder(i, j); }
  }

  /** A decimal strictly between two equally good ones is better than both. */
  lemma BetweenIsCloser(x: Magnitude, d: nat, q: int, d': nat, q': int, c: nat, p: int)
    requires RoundTrips(x, d, q) && RoundTrips(x, d', q')
    requires Error(x, d, q) == Error(x, d', q')
    requires Dec(d, q) < Dec(c, p) < Dec(d', q')
    ensures RoundTrips(x, c, p) && Error(x, c, p) < Error(x, d, q)
  {
    RoundConvex(Dec(d, q), Dec(c, p), Dec(d', q'), x);
  }

  /** The shortest closest digits are unique, so every implementation that meets the
      contract produces the same ones. */
  lemma ShortestUnique(x: Magnitude, d: nat, q: int, d': nat, q': int)
    requires IsShortest(x, d, q) && IsShortest(x, d', q')
    ensures d == d' && q == q'
  {
    NotBelow(x, d, q, d', q');
    NotBelow(x, d', q', d, q);
    SameDecimal(d, q, d', q');
  }

  /** Neither of two shortest decimals is below the other: they would tie with both even. */
  lemma NotBelow(x: Magnitude, d: nat, q: int, d': nat, q': int)
    requires IsShortest(x, d, q) && IsShortest(x, d', q')
    ensures Dec(d', q') <= Dec(d, q)
  {
    hide Dec, Error, Round, IsShortest;
    ShortestTrips(x, d, q);
    ShortestTrips(x, d', q');
    if Dec(d, q) < Dec(d', q') {
      Tied(x, d, q, d', q');
      if q == q' {
        TieInDecade(x, d, d', q);
      } else if q' < q {
        DecDecade(d, q);
        DecDecade(d', q');
        SameDecade(Size(d) + q', Size(d) + q - 1);
      } else {
        TieAcrossDecades(x, d, q, d', q');
      }
    }
  }

  lemma ShortestTrips(x: Magnitude, d: nat, q: int)
    requires IsShortest(x, d, q)
    ensures RoundTrips(x, d, q)
  {}

  lemma Tied(x: Magnitude, d: nat, q: int, d': nat, q': int)
    requires IsShortest(x, d, q) && IsShortest(x, d', q')
    ensures Size(d) == Size(d') && Error(x, d, q) == Error(x, d', q')
    ensures Dec(d, q) == Dec(d', q') || (d % 2 == 0 && d' % 2 == 0)
  {
    hide Dec, Error, Round;
    assert Size(d') == Size(d);
    assert Preferred(x, d, q, d', q') && Preferred(x, d', q', d, q);
  }

  lemma TieInDecade(x: Magnitude, d: nat, d': nat, q: int)
    requires IsShortest(x, d, q) && RoundTrips(x, d', q) && Size(d) == Size(d')
    requires Error(x, d, q) == Error(x, d', q) && Dec(d, q) < Dec(d', q)
    ensures d' == d + 1
  {
    hide Dec, Error, Round;
    DecOrder(d, d', q);
    if d + 1 < d' {
      DecOrder(d + 1, d', q);
      SizeMono(d, d + 1);
      SizeMono(d + 1, d');
      NextIsCloser(x, d, q, d', q);
    }
  }

  /** If a power of ten separates the two, one digit is enough, and the lower one is 9. */
  lemma TieAcrossDecades(x: Magnitude, d: nat, q: int, d': nat, q': int)
    requires IsShortest(x, d, q) && RoundTrips(x, d', q') && Size(d) == Size(d')
    requires Error(x, d, q) == Error(x, d', q') && Dec(d, q) < Dec(d', q') && q < q'
    ensures d == 9
  {
    hide Dec, Error, Round;
    var k := Size(d);
    DecDecade(d, q);
    DecDecade(d', q');
    SameDecade(k + q, k + q' - 1);
    RoundConvex(Dec(d, q), Dec(1, k + q), Dec(d', q'), x);
    OneIsShortest(x, d, q, k + q);
    if d < 9 {
      DecPad(1, q, 1);
      assert Pow(10, 1) == 10;
      DecOrder(d + 1, 10, q);
      assert Size(d + 1) == 1;
      NextIsCloser(x, d, q, d', q');
    }
  }

  /** When a power of ten rounds to x, the shortest digits are one digit. */
  lemma OneIsShortest(x: Magnitude, d: nat, q: int, j: int)
    requires IsShortest(x, d, q) && Round(Dec(1, j)) == Some(x)
    ensures Size(d) == 1 && d < 10
  {
    assert RoundTrips(x, 1, j) && Size(1) == 1;
  }

  lemma NextIsCloser(x: Magnitude, d: nat, q: int, d': nat, q': int)
    requires RoundTrips(x, d, q) && RoundTrips(x, d', q')
    requires Error(x, d, q) == Error(x, d', q') && Dec(d + 1, q) < Dec(d', q')
    requires Size(d + 1) == Size(d)
    ensures !IsShortest(x, d, q)
  {
    DecOrder(d, d + 1, q);
    BetweenIsCloser(x, d, q, d', q', d + 1, q);
    assert !Preferred(x, d, q, d + 1, q);
  }

  /** Shortest digits end in no zero. */
  lemma ShortestEndsNonzero(x: Magnitude, d: nat, q: int)
    requires IsShortest(x, d, q)
    ensures d % 10 != 0
  {
    if d % 10 == 0 {
      DecPad(d / 10, q, 1);
      assert Pow(10, 1) == 10;
      assert Size(d) == Size(d / 10) + 1;
      assert RoundTrips(x, d / 10, q + 1);
    }
  }

  // ---------- integers below 2^53 ----------

  lemma IntegerValue(n: nat)
    requires n <= TWO53
    ensures RoundUnbounded(n as real).Value() == n as real
    ensures Round(n as real).Some?
  {
    hide Shift;
    ShiftZero(n as real, 2);
    if n < TWO53 {
      RoundExact(n, 0);
    } else {
      ShiftZero(TWO52 as real, 2);
      ShiftStep(TWO52 as real, 2, 0);
      RoundExact(TWO52, 1);
    }
    SmallExponent(n as real);
  }

  lemma SmallExponent(r: real)
    requires 0.0 <= r <= TWO53 as real
    ensures RoundUnbounded(r).exp <= MAX_EXP
  {
    hide Shift;
    var x, y := RoundUnbounded(r), Magnitude(TWO52, 1);
    ShiftZero(TWO52 as real, 2);
    ShiftStep(TWO52 as real, 2, 0);
    ShiftZero(TWO53 as real, 2);
    RoundMono(r, TWO53 as real);
    RoundExact(TWO52, 1);
    if y.exp < x.exp { ExponentOrder(y, x); }
  }

  /** Only an integer's own value rounds to it among decimals that are integers. */
  lemma IntegerRoundTrip(n: nat, r: real)
    requires 0 < n < TWO53 && 0.0 <= r && Round(r) == Round(n as real)
    ensures n as real - 1.0 < r < n as real + 1.0
  {
    hide RoundUnbounded, Magnitude.Value;
    IntegerValue(n);
    if r <= n as real - 1.0 {
      IntegerValue(n - 1);
      RoundMono(r, n as real - 1.0);
    }
    if n as real + 1.0 <= r {
      IntegerValue(n + 1);
      RoundMono(n as real + 1.0, r);
    }
  }

  /** For an integer below 2^53 the shortest digits spell that integer exactly. */
  lemma ShortestOfInteger(n: nat, d: nat, q: int)
    requires 0 < n < TWO53 && Round(n as real).Some?
    requires IsShortest(Round(n as real).value, d, q)
    ensures Dec(d, q) == n as real && 0 <= q
  {
    hide Dec, Error;
    var x := Round(n as real).value;
    var (e, t) := Trim(n, 0);
    IntegerRoundTrip(n, Dec(d, q));
    ExactIsBest(n, d, q, e, t);
    if q < 0 {
      ShortFraction(n, d, q);
      SizeMono(e, n);
      FractionEndsInZero(n, d, q);
      ShortestEndsNonzero(x, d, q);
    } else {
      DecInteger(d, q);
      IntegerBetween(n, d * Pow(10, q));
    }
  }

  lemma IntegerBetween(n: int, m: int)
    requires n as real - 1.0 < m as real < n as real + 1.0
    ensures n == m
  {}

  /** The integer's own digits, trailing zeros trimmed, round trip without error; digits no
      shorter than those must be exact too. */
  lemma ExactIsBest(n: nat, d: nat, q: int, e: nat, t: int)
    requires 0 < n < TWO53 && Round(n as real).Some? && (e, t) == Trim(n, 0)
    requires IsShortest(Round(n as real).value, d, q)
    ensures Size(e) <= Size(d) ==> Dec(d, q) == n as real
  {
    hide Dec, Round;
    var x := Round(n as real).value;
    IntegerValue(n);
    UnitDecimal(n);
    RoundedInteger(n);
    assert RoundTrips(x, e, t) && Error(x, e, t) == 0.0;
    if Size(e) <= Size(d) {
      assert Preferred(x, d, q, e, t);
    }
  }

  lemma RoundedInteger(n: nat)
    ensures Round(n as real).Some? ==> Round(n as real).value == RoundUnbounded(n as real)
  {}

  lemma DecInteger(d: nat, q: nat)
    ensures Dec(d, q) == (d * Pow(10, q)) as real
  {
    hide Shift;
    ShiftPow(d, 10, q);
  }

  /** An integer written with a fractional exponent ends in a zero. */
  lemma FractionEndsInZero(n: nat, d: nat, q: int)
    requires q < 0
    ensures Dec(d, q) == n as real ==> d % 10 == 0
  {
    hide Dec, Pow;
    UnitDecimal(n);
    DecPad(n, q, -q);
    DecOrder(n * Pow(10, -q), d, q);
    TenDivides(n, -q);
    if Dec(d, q) == n as real { MultipleOfTen(d, n * Pow(10, -q - 1)); }
  }

  lemma UnitDecimal(n: nat)
    ensures Dec(n, 0) == n as real
  {
    DecInteger(n, 0);
  }

  lemma MultipleOfTen(d: nat, k: nat)
    requires d == 10 * k
    ensures d % 10 == 0
  {}

  lemma TenDivides(n: nat, j: nat)
    requires 0 < j
    ensures n * Pow(10, j) == 10 * (n * Pow(10, j - 1))
  {}

  /** A decimal with a fractional exponent close to n needs as many digits as n. */
  lemma ShortFraction(n: nat, d: nat, q: int)
    requires 0 < n && q < 0 && n as real - 1.0 < Dec(d, q)
    ensures Size(n) <= Size(d)
  {
    hide Dec;
    if 1 < n {
      // (n - 1) * 10^-q < d
      DecPad(n - 1, q, -q);
      DecInteger(n - 1, 0);
      DecOrder((n - 1) * Pow(10, -q), d, q);
      TenDivides(n - 1, -q);
      assert n - 1 <= (n - 1) * Pow(10, -q - 1) by { AtLeast(n - 1, Pow(10, -q - 1)); }
      SizeMono(n, d);
    } else {
      assert Size(1) == 1;
    }
  }

  lemma AtLeast(n: nat, p: nat)
    requires 0 < p
    ensures n <= n * p
  {}

  /** Trailing zeros of d moved into the exponent. */
  function Trim(d: nat, q: int): (r: (nat, int))
    ensures Dec(r.0, r.1) == Dec(d, q)
    ensures q <= r.1 && r.0 <= d
    ensures 0 < d ==> 0 < r.0 && r.0 % 10 != 0
  {
    if d > 0 && d % 10 == 0 then
      DecPad(d / 10, q, 1);
      assert Pow(10, 1) == 10;
      Trim(d / 10, q + 1)
    else (d, q)
  }

  // ---------- powers of ten as thresholds ----------

  /** Rounding in the normal range moves a number by less than a part in 2^52. */
  lemma RelativeError(r: real)
    requires Shift(TWO53 as real, 2, MIN_EXP) <= r
    ensures 0.0 <= r && Abs(r - RoundUnbounded(r).Value()) * TWO53 as real <= r
  {
    hide Shift;
    ShiftOrder(0.0, TWO53 as real, 2, MIN_EXP);
    ShiftOrder(0.0, 0.0, 2, MIN_EXP);
    var (y, e) := Scaled(r);
    var n := NearestEven(y);
    RoundedValue(r);
    ShiftAbs(y, n as real, e);
    if e == MIN_EXP { ShiftOrder(y, TWO53 as real, 2, e); }
    ShiftOrder(0.5, Abs(y - n as real), 2, e);
    ShiftOrder(y, TWO52 as real, 2, e);
    ShiftScale(0.5, TWO53, e);
    assert 0.5 * TWO53 as real == TWO52 as real;
  }

  lemma ShiftScale(y: real, k: nat, e: int)
    ensures Shift(y, 2, e) * k as real == Shift(y * k as real, 2, e)
  {
    hide Shift;
    ShiftTimes(k as real, y, 2, e);
    assert k as real * y == y * k as real;
  }

  /** Comparing a double with the double nearest to 10^j is comparing its shortest decimal
      with 10^j. */
  lemma PowerThreshold(x: Magnitude, d: nat, q: int, j: int)
    requires IsShortest(x, d, q)
    requires Shift(TWO53 as real, 2, MIN_EXP) <= Dec(1, j) && Round(Dec(1, j)).Some?
    ensures x.Value() < Round(Dec(1, j)).value.Value() <==> Size(d) + q <= j
  {
    hide Shift;
    var p, v := Dec(1, j), Dec(d, q);
    var c := Round(p).value;
    DecDecade(d, q);
    if Size(d) + q <= j {
      SameDecade(Size(d) + q, j);
      RoundMono(v, p);
      if x.Value() == c.Value() {
        RegularUnique(x, c);
        assert RoundTrips(x, 1, j) && Size(1) == 1;
        assert Preferred(x, d, q, 1, j);
        RelativeError(p);
        NineTenths(d, q, j);
      }
    } else {
      SameDecade(j, Size(d) + q - 1);
      RoundMono(p, v);
    }
  }

  lemma NineTenths(d: nat, q: int, j: int)
    requires 0 < d && Size(d) == 1 && q < j
    ensures 10.0 * Dec(d, q) <= 9.0 * Dec(1, j)
  {
    hide Shift;
    DecOrder(d, 9, q);
    DecNine(q);
    DecadeOrder(q, j);
  }

  lemma DecNine(q: int)
    ensures Dec(9, q) == 9.0 * Dec(1, q)
  {
    hide Shift;
    ShiftTimes(9.0, 1.0, 10, q);
  }
}
