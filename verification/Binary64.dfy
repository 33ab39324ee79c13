/** IEEE 754 binary64 values, and rounding of exact numbers to the nearest of them. */
module Binary64 {
  import opened Powers
  import opened Wrappers

  const TWO52: nat := 0x10_0000_0000_0000
  const TWO53: nat := 0x20_0000_0000_0000
  const MIN_EXP: int := -1074
  const MAX_EXP: int := 971

  /** mant * 2^exp. Regular magnitudes are the unique representatives of binary64's
      grid, with no upper bound on the exponent. */
  datatype Magnitude = Magnitude(mant: nat, exp: int) {
    predicate Regular() {
      mant < TWO53 && MIN_EXP <= exp && (mant < TWO52 ==> exp == MIN_EXP)
    }

    function Value(): real {
      Shift(mant as real, 2, exp)
    }
  }

  datatype Float = Finite(neg: bool, mag: Magnitude) | Infinite(neg: bool) | NaN

  type Double = x: Float | x.Finite? ==> x.mag.Regular() && x.mag.exp <= MAX_EXP
    witness NaN

  const ZERO: Double := Finite(false, Magnitude(0, MIN_EXP))

  // ---------- rounding ----------

  /** Nearest integer, ties to even. */
  function NearestEven(y: real): (n: nat)
    requires y >= 0.0
    ensures n as real - 0.5 <= y <= n as real + 0.5
    ensures n as real - 0.5 == y || n as real + 0.5 == y ==> n % 2 == 0
  {
    var f := y.Floor;
    var d := y - f as real;
    if d < 0.5 || (d == 0.5 && f % 2 == 0) then f else f + 1
  }

  /** Halve y until it fits 53 bits. */
  function Scale(y: real, e: int): (r: (real, int))
    requires y >= 0.0
    ensures 0.0 <= r.0 < TWO53 as real && e <= r.1
    ensures Shift(r.0, 2, r.1) == Shift(y, 2, e)
    ensures e < r.1 ==> TWO52 as real <= r.0
    decreases y.Floor
  {
    hide Shift;
    if y < TWO53 as real then (y, e)
    else
      ShiftStep(y / 2.0, 2, e);
      Scale(y / 2.0, e + 1)
  }

  /** r on the grid 2^-1074, brought to 53 bits. */
  function Scaled(r: real): (s: (real, int))
    requires r >= 0.0
    ensures 0.0 <= s.0 < TWO53 as real && MIN_EXP <= s.1
    ensures Shift(s.0, 2, s.1) == r
    ensures MIN_EXP < s.1 ==> TWO52 as real <= s.0
  {
    hide Shift;
    ShiftOrder(r, r, 2, -MIN_EXP);
    ShiftAdd(r, 2, -MIN_EXP, MIN_EXP);
    ShiftZero(r, 2);
    Scale(Shift(r, 2, -MIN_EXP), MIN_EXP)
  }

  /** Round to nearest, ties to even, as if the exponent range were unbounded above. */
  function RoundUnbounded(r: real): (x: Magnitude)
    requires r >= 0.0
    ensures x.Regular()
  {
    hide Shift;
    var (y, e) := Scaled(r);
    var m := NearestEven(y);
    if m == TWO53 then Magnitude(TWO52, e + 1) else Magnitude(m, e)
  }

  /** Round to nearest, ties to even; None is overflow. */
  function Round(r: real): (x: Option<Magnitude>)
    requires r >= 0.0
    ensures x.Some? ==> x.value.Regular() && x.value.exp <= MAX_EXP
  {
    var x := RoundUnbounded(r);
    if x.exp <= MAX_EXP then Some(x) else None
  }

  /** The rounded value is the scaled integer part, whichever representative is kept. */
  lemma RoundedValue(r: real)
    requires r >= 0.0
    ensures var (y, e) := Scaled(r);
      RoundUnbounded(r).Value() == Shift(NearestEven(y) as real, 2, e)
  {
    hide Shift;
    var (y, e) := Scaled(r);
    if NearestEven(y) == TWO53 { ShiftStep(TWO52 as real, 2, e); }
  }

  // ---------- the grid ----------

  lemma ExponentOrder(a: Magnitude, b: Magnitude)
    requires a.Regular() && b.Regular() && a.exp < b.exp
    ensures a.Value() < Shift(TWO52 as real, 2, b.exp) <= b.Value()
  {
    hide Shift;
    ShiftOrder(a.mant as real, TWO53 as real, 2, a.exp);
    ShiftUp(TWO52 as real, 2, a.exp, b.exp);
    ShiftOrder(TWO52 as real, b.mant as real, 2, b.exp);
  }

  /** A magnitude has one regular representation. */
  lemma RegularUnique(a: Magnitude, b: Magnitude)
    requires a.Regular() && b.Regular() && a.Value() == b.Value()
    ensures a == b
  {
    hide Shift;
    if a.exp < b.exp { ExponentOrder(a, b); }
    if b.exp < a.exp { ExponentOrder(b, a); }
    ShiftOrder(a.mant as real, b.mant as real, 2, a.exp);
  }

  // ---------- laws of rounding ----------

  function Abs(r: real): real { if r < 0.0 then -r else r }

  lemma NearestEvenBest(y: real, k: int)
    requires y >= 0.0
    ensures var n := NearestEven(y) as real;
      Abs(y - n) <= Abs(y - k as real)
      && (Abs(y - n) == Abs(y - k as real) && k != NearestEven(y) ==> NearestEven(y) % 2 == 0)
  {}

  lemma ShiftAbs(y: real, z: real, e: int)
    ensures Abs(Shift(y, 2, e) - Shift(z, 2, e)) == Shift(Abs(y - z), 2, e)
  {
    hide Shift;
    ShiftMinus(y, z, 2, e);
    ShiftMinus(y - z, 0.0, 2, e);
    ShiftOrder(0.0, y - z, 2, e);
  }

  lemma ScaledMono(r: real, s: real)
    requires 0.0 <= r <= s
    ensures Scaled(r).1 <= Scaled(s).1
    ensures Scaled(r).1 == Scaled(s).1 ==> Scaled(r).0 <= Scaled(s).0
  {
    hide Shift;
    var (y, e) := Scaled(r);
    var (z, f) := Scaled(s);
    if e == f {
      ShiftOrder(z, y, 2, e);
    } else if f < e {
      ShiftOrder(z, TWO53 as real, 2, f);
      ShiftUp(TWO52 as real, 2, f, e);
      ShiftOrder(y, TWO52 as real, 2, e);
      assert false;
    }
  }

  lemma NearestEvenMono(y: real, z: real)
    requires 0.0 <= y <= z
    ensures NearestEven(y) <= NearestEven(z)
  {}

  lemma NearestEvenRange(y: real)
    requires 0.0 <= y < TWO53 as real
    ensures NearestEven(y) <= TWO53
    ensures TWO52 as real <= y ==> TWO52 <= NearestEven(y)
  {}

  /** Rounding is monotone. */
  lemma RoundMono(r: real, s: real)
    requires 0.0 <= r <= s
    ensures RoundUnbounded(r).Value() <= RoundUnbounded(s).Value()
    ensures Round(s).Some? ==> Round(r).Some?
  {
    RoundUnboundedMono(r, s);
    if RoundUnbounded(s).exp < RoundUnbounded(r).exp {
      ExponentOrder(RoundUnbounded(s), RoundUnbounded(r));
    }
  }

  lemma RoundUnboundedMono(r: real, s: real)
    requires 0.0 <= r <= s
    ensures RoundUnbounded(r).Value() <= RoundUnbounded(s).Value()
  {
    hide Shift, NearestEven, Scaled, RoundUnbounded, Magnitude.Value;
    var (y, e) := Scaled(r);
    var (z, f) := Scaled(s);
    ScaledMono(r, s);
    RoundedValue(r);
    RoundedValue(s);
    NearestEvenRange(y);
    NearestEvenRange(z);
    if e == f {
      NearestEvenMono(y, z);
      ShiftOrder(NearestEven(z) as real, NearestEven(y) as real, 2, e);
    } else {
      ShiftOrder(TWO53 as real, NearestEven(y) as real, 2, e);
      ShiftUp(TWO52 as real, 2, e, f);
      ShiftOrder(NearestEven(z) as real, TWO52 as real, 2, f);
    }
  }

  /** What lies between two numbers that round alike rounds alike. */
  lemma RoundConvex(r: real, t: real, s: real, x: Magnitude)
    requires 0.0 <= r <= t <= s
    requires Round(r) == Some(x) && Round(s) == Some(x)
    ensures Round(t) == Some(x)
  {
    RoundMono(r, t);
    RoundMono(t, s);
    RegularUnique(RoundUnbounded(t), x);
  }

  lemma {:induction false} ScaleInteger(n: nat, j: nat, e: int)
    requires n < TWO53
    ensures var y := (n * Pow(2, j)) as real;
      y >= 0.0 && Scale(y, e).0 == Scale(y, e).0.Floor as real
    decreases j
  {
    hide Shift;
    var y := (n * Pow(2, j)) as real;
    assert y >= 0.0;
    if TWO53 as real <= y {
      assert j > 0;
      assert n * Pow(2, j) == 2 * (n * Pow(2, j - 1));
      assert y / 2.0 == (n * Pow(2, j - 1)) as real;
      ScaleInteger(n, j - 1, e + 1);
    }
  }

  /** Numbers on the grid are their own rounding. */
  lemma RoundExact(n: nat, e: int)
    requires n < TWO53 && MIN_EXP <= e
    ensures Shift(n as real, 2, e) >= 0.0
    ensures RoundUnbounded(Shift(n as real, 2, e)).Value() == Shift(n as real, 2, e)
  {
    hide Shift;
    var r := Shift(n as real, 2, e);
    ShiftOrder(n as real, n as real, 2, e);
    ShiftAdd(n as real, 2, e, -MIN_EXP);
    ShiftPow(n, 2, e - MIN_EXP);
    ScaleInteger(n, e - MIN_EXP, MIN_EXP);
    RoundedValue(r);
  }

  /** A regular magnitude rounds to itself. */
  lemma RoundRegular(x: Magnitude)
    requires x.Regular()
    ensures x.Value() >= 0.0
    ensures RoundUnbounded(x.Value()) == x
    ensures x.exp <= MAX_EXP ==> Round(x.Value()) == Some(x)
  {
    hide Shift;
    RoundExact(x.mant, x.exp);
    RegularUnique(RoundUnbounded(x.Value()), x);
  }

  /** No point of the grid is nearer than the rounding, and a tie goes to the even one. */
  lemma RoundNearest(r: real, z: Magnitude)
    requires r >= 0.0 && z.Regular()
    ensures var x := RoundUnbounded(r);
      && Abs(r - x.Value()) <= Abs(r - z.Value())
      && (Abs(r - x.Value()) == Abs(r - z.Value()) && z != x ==> x.mant % 2 == 0)
  {
    hide Shift;
    var x := RoundUnbounded(r);
    var (y, e) := Scaled(r);
    var n := NearestEven(y);
    RoundedValue(r);
    ShiftAbs(y, n as real, e);
    if e <= z.exp {
      var k := z.mant * Pow(2, z.exp - e);
      ShiftPow(z.mant, 2, z.exp - e);
      ShiftAdd(z.mant as real, 2, z.exp - e, e);
      NearestEvenBest(y, k);
      ShiftAbs(y, k as real, e);
      ShiftOrder(Abs(y - k as real), Abs(y - n as real), 2, e);
      if k == n && z != x { RegularUnique(x, z); }
    } else {
      ExponentOrder(z, Magnitude(TWO52, e));
      NearestEvenBest(y, TWO52);
      ShiftAbs(y, TWO52 as real, e);
      ShiftOrder(Abs(y - TWO52 as real), Abs(y - n as real), 2, e);
      ShiftOrder(y, TWO52 as real, 2, e);
    }
  }
}
