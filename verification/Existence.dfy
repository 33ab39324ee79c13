/** Every nonzero binary64 magnitude has shortest closest digits, so the contract assumed of repr can
    be met, and so can everything else that is assumed of the libraries. */
module Existence {
  import opened Powers
  import opened Wrappers
  import opened Text
  import opened Decimal
  import opened Binary64
  import opened Shortest
  import opened Numeral
  import opened Numbers
  import opened NumberLaws
  import opened GoNumber
  import opened Records
  import opened Render
  import opened Standalone

  // ---------- an exact decimal ----------

  lemma {:induction false} PowProduct(j: nat)
    ensures Pow(10, j) == Pow(2, j) * Pow(5, j)
  {
    if j > 0 {
      PowProduct(j - 1);
      assert 2 * Pow(2, j - 1) * (5 * Pow(5, j - 1)) == 10 * (Pow(2, j - 1) * Pow(5, j - 1));
    }
  }

  lemma Halves(m: real, two: real, five: real)
    requires two > 0.0 && five > 0.0
    ensures m * (1.0 / two) == m * five * (1.0 / (two * five))
  {
    assert 1.0 / two == five * (1.0 / (two * five));
  }

  lemma FractionIsDecimal(m: nat, j: nat)
    requires 0 < j
    ensures Shift(m as real, 2, 0 - j) == Dec(m * Pow(5, j), 0 - j)
  {
    hide Pow, Shift;
    PowProduct(j);
    ShiftIsProduct(m as real, 2, 0 - j);
    ShiftIsProduct((m * Pow(5, j)) as real, 10, 0 - j);
    Halves(m as real, Pow(2, j) as real, Pow(5, j) as real);
  }

  /** A binary fraction is a decimal fraction. */
  lemma ExactDecimal(x: Magnitude) returns (e: nat, t: int)
    requires 0 < x.mant
    ensures 0 < e && Dec(e, t) == x.Value()
  {
    hide Shift, Dec;
    if x.exp >= 0 {
      e, t := x.mant * Pow(2, x.exp), 0;
      ShiftPow(x.mant, 2, x.exp);
      DecInteger(e, 0);
      ProductPositive(x.mant, Pow(2, x.exp));
      TimesOne(e);
    } else {
      e, t := x.mant * Pow(5, -x.exp), x.exp;
      FractionIsDecimal(x.mant, -x.exp);
      ProductPositive(x.mant, Pow(5, -x.exp));
    }
  }

  lemma TimesOne(e: nat)
    ensures e * Pow(10, 0) == e
  {}

  lemma ProductPositive(a: nat, b: nat)
    requires 0 < a && 0 < b
    ensures 0 < a * b
  {}

  // ---------- the least length ----------

  ghost predicate LeastSize(x: Magnitude, n: nat) {
    forall d', q' | RoundTrips(x, d', q') :: n <= Size(d')
  }

  lemma {:induction false} Shorten(x: Magnitude, d: nat, q: int) returns (d': nat, q': int)
    requires RoundTrips(x, d, q)
    ensures RoundTrips(x, d', q') && LeastSize(x, Size(d'))
    decreases Size(d)
  {
    if c, p :| RoundTrips(x, c, p) && Size(c) < Size(d) {
      d', q' := Shorten(x, c, p);
    } else {
      d', q' := d, q;
    }
  }

  // ---------- the nearest below and above ----------

  /** A candidate: a decimal of n digits that rounds to x. */
  ghost predicate Fits(x: Magnitude, n: nat, d: nat, q: int) { RoundTrips(x, d, q) && Size(d) == n }

  ghost predicate HighestBelow(x: Magnitude, n: nat, d: nat, q: int) {
    && Fits(x, n, d, q) && Dec(d, q) <= x.Value()
    && forall d', q' | Fits(x, n, d', q') && Dec(d', q') <= x.Value() :: Dec(d', q') <= Dec(d, q)
  }

  ghost predicate LowestAbove(x: Magnitude, n: nat, d: nat, q: int) {
    && Fits(x, n, d, q) && x.Value() <= Dec(d, q)
    && forall d', q' | Fits(x, n, d', q') && x.Value() <= Dec(d', q') :: Dec(d, q) <= Dec(d', q')
  }

  /** Decimals of one length are ordered by exponent, then by digits. */
  lemma OrderByExponent(d: nat, q: int, d': nat, q': int)
    requires 0 < d && 0 < d' && Size(d) == Size(d') && Dec(d, q) < Dec(d', q')
    ensures q < q' || (q == q' && d < d')
  {
    hide Dec;
    DecDecade(d, q);
    DecDecade(d', q');
    if q' < q { SameDecade(Size(d) + q', Size(d) + q - 1); }
    DecOrder(d, d', q);
  }

  lemma ExponentBelow(d: nat, q: int, e: nat, t: int)
    requires 0 < d && 0 < e && Dec(d, q) <= Dec(e, t)
    ensures q <= Size(e) + t - Size(d)
  {
    hide Dec;
    DecDecade(d, q);
    DecDecade(e, t);
    if Size(e) + t - Size(d) < q { SameDecade(Size(e) + t, Size(d) + q - 1); }
  }

  lemma {:induction false} Raise(x: Magnitude, n: nat, d: nat, q: int, e: nat, t: int) returns (d': nat, q': int)
    requires 0 < e && Dec(e, t) == x.Value() && Fits(x, n, d, q) && Dec(d, q) <= x.Value()
    ensures HighestBelow(x, n, d', q')
    decreases Size(e) + t - n - q, Pow(10, n) - d
  {
    hide Dec;
    ExponentBelow(d, q, e, t);
    SizeBounds(d);
    if c, p :| Fits(x, n, c, p) && Dec(c, p) <= x.Value() && Dec(d, q) < Dec(c, p) {
      ExponentBelow(c, p, e, t);
      SizeBounds(c);
      OrderByExponent(d, q, c, p);
      d', q' := Raise(x, n, c, p, e, t);
    } else {
      d', q' := d, q;
    }
  }

  lemma {:induction false} Lower(x: Magnitude, n: nat, d: nat, q: int, e: nat, t: int) returns (d': nat, q': int)
    requires 0 < e && Dec(e, t) == x.Value() && Fits(x, n, d, q) && x.Value() <= Dec(d, q)
    ensures LowestAbove(x, n, d', q')
    decreases q - (Size(e) + t - n), d
  {
    hide Dec;
    ExponentBelow(e, t, d, q);
    if c, p :| Fits(x, n, c, p) && x.Value() <= Dec(c, p) && Dec(c, p) < Dec(d, q) {
      ExponentBelow(e, t, c, p);
      OrderByExponent(c, p, d, q);
      d', q' := Lower(x, n, c, p, e, t);
    } else {
      d', q' := d, q;
    }
  }

  // ---------- no tie between two odd neighbours ----------

  lemma {:induction false} PowTwoNotFive(k: nat)
    ensures Pow(2, k) % 5 != 0
  {
    if k > 0 { PowTwoNotFive(k - 1); }
  }

  lemma CrossMultiply(a: nat, j: nat, b: nat, k: nat)
    requires 0 < j && 0 < k && Shift(a as real, 2, 0 - j) == Dec(b, 0 - k)
    ensures a * Pow(10, k) == b * Pow(2, j)
  {
    hide Pow;
    var p, q := Pow(2, j), Pow(10, k);
    NegativeShift(a, 2, j);
    NegativeShift(b, 10, k);
    CommonFraction(a, p, b, q);
  }

  lemma NegativeShift(a: nat, b: nat, j: nat)
    requires 0 < b && 0 < j
    ensures Shift(a as real, b, 0 - j) == a as real * (1.0 / Pow(b, j) as real)
  {
    hide Pow, Shift;
    ShiftIsProduct(a as real, b, 0 - j);
  }

  lemma CommonFraction(a: nat, p: nat, b: nat, q: nat)
    requires 0 < p && 0 < q && a as real * (1.0 / p as real) == b as real * (1.0 / q as real)
    ensures a * q == b * p
  {
    Fractions(a as real, p as real, b as real, q as real);
    assert (a * q) as real == a as real * q as real && (b * p) as real == b as real * p as real;
  }

  lemma Fractions(a: real, p: real, b: real, q: real)
    requires p > 0.0 && q > 0.0
    ensures a * (1.0 / p) == b * (1.0 / q) ==> a * q == b * p
  {
    var u, v := 1.0 / p, 1.0 / q;
    assert p * u == 1.0 && q * v == 1.0;
    if a * u == b * v {
      Regroup(a, u, p, q);
      Regroup(b, v, q, p);
    }
  }

  lemma Regroup(a: real, u: real, p: real, q: real)
    requires p * u == 1.0
    ensures (a * u) * (p * q) == a * q
  {
    assert (a * u) * (p * q) == (p * u) * (a * q);
  }

  /** 9.5 * 10^q is no binary64 value to which 9 * 10^q rounds. */
  lemma NoHalfDecade(x: Magnitude, q: int)
    requires x.Regular() && RoundTrips(x, 9, q)
    ensures x.Value() + x.Value() != Dec(19, q)
  {
    hide Dec, Shift;
    if Shift(TWO53 as real, 2, MIN_EXP) <= Dec(9, q) {
      RelativeError(Dec(9, q));
      DecMultiples(q);
    } else if x.Value() + x.Value() == Dec(19, q) {
      TinyDecade(q);
      var k := 0 - q;
      var m := x.mant * Pow(2, x.exp - MIN_EXP + 1);
      DoubleOnGrid(x, m);
      CrossMultiply(m, 1074, 19, k);
      PowTwoNotFive(1074);
      TimesTen(m, k);
      NotFive(Pow(2, 1074), m * Pow(10, k - 1));
    }
  }

  lemma DecMultiples(q: int)
    ensures 0.0 < Dec(1, q) && Dec(9, q) == 9.0 * Dec(1, q) && Dec(19, q) == 19.0 * Dec(1, q)
  {
    hide Shift;
    ShiftTimes(9.0, 1.0, 10, q);
    ShiftTimes(19.0, 1.0, 10, q);
  }

  /** Decimals below the normal range have negative exponents. */
  lemma TinyDecade(q: int)
    requires Dec(9, q) < Shift(TWO53 as real, 2, MIN_EXP)
    ensures q < 0
  {
    hide Dec, Shift;
    if q >= 0 {
      DecInteger(9, q);
      ProductPositive(9, Pow(10, q));
      ShiftZero(1.0, 2);
      TinyPower();
    }
  }

  lemma TinyPower()
    ensures Shift(TWO53 as real, 2, MIN_EXP) <= Shift(1.0, 2, 0)
  {
    hide Shift, Exp, Pow;
    ShiftPow(1, 2, 53);
    Pow53();
    ShiftAdd(1.0, 2, 53, MIN_EXP);
    ShiftUp(1.0, 2, 53 + MIN_EXP, 0);
    ShiftOrder(1.0, 2.0, 2, 53 + MIN_EXP);
  }

  lemma DoubleOnGrid(x: Magnitude, m: nat)
    requires x.Regular() && m == x.mant * Pow(2, x.exp - MIN_EXP + 1)
    ensures Shift(m as real, 2, MIN_EXP) == x.Value() + x.Value()
  {
    hide Shift, Exp, Pow;
    ShiftPow(x.mant, 2, x.exp - MIN_EXP + 1);
    ShiftAdd(x.mant as real, 2, x.exp - MIN_EXP + 1, MIN_EXP);
    ShiftStep(x.mant as real, 2, x.exp);
    ShiftMinus(2.0 * x.mant as real, x.mant as real, 2, x.exp);
  }

  lemma TimesTen(m: nat, k: nat)
    requires 0 < k
    ensures m * Pow(10, k) == 10 * (m * Pow(10, k - 1))
  {}

  lemma NotFive(p: nat, n: nat)
    requires p % 5 != 0
    ensures 10 * n != 19 * p
  {}

  /** Neighbours at the same distance are not both odd. */
  lemma OddTie(x: Magnitude, n: nat, d: nat, q: int, d': nat, q': int)
    requires x.Regular() && LeastSize(x, n) && HighestBelow(x, n, d, q) && LowestAbove(x, n, d', q')
    requires Error(x, d, q) == Error(x, d', q') && Dec(d, q) < Dec(d', q')
    ensures d % 2 == 0 || d' % 2 == 0
  {
    hide Dec, Error, HighestBelow, LowestAbove, Round;
    NeighboursFit(x, n, d, q, d', q');
    OrderByExponent(d, q, d', q');
    if q == q' {
      if d + 1 < d' {
        DecOrder(d, d + 1, q);
        DecOrder(d + 1, d', q);
        SizeMono(d, d + 1);
        SizeMono(d + 1, d');
        Between(x, n, d, q, d', q', d + 1, q);
      }
    } else {
      AcrossDecades(x, n, d, q, d', q');
    }
  }

  lemma NeighboursFit(x: Magnitude, n: nat, d: nat, q: int, d': nat, q': int)
    requires HighestBelow(x, n, d, q) && LowestAbove(x, n, d', q')
    ensures Fits(x, n, d, q) && Fits(x, n, d', q') && Dec(d, q) <= x.Value() <= Dec(d', q')
  {}

  /** Across a power of ten, equally distant neighbours cannot be: the lower would be 9. */
  lemma AcrossDecades(x: Magnitude, n: nat, d: nat, q: int, d': nat, q': int)
    requires x.Regular() && LeastSize(x, n) && HighestBelow(x, n, d, q) && LowestAbove(x, n, d', q')
    requires Dec(d, q) < Dec(d', q') && q < q'
    ensures Error(x, d, q) != Error(x, d', q')
  {
    hide Dec, HighestBelow, LowestAbove, LeastSize, Round;
    NeighboursFit(x, n, d, q, d', q');
    OneDigit(x, n, d, q, d', q');
    TenIsNext(q);
    DecOrder(9, 10, q);
    if d < 9 {
      DecOrder(d, d + 1, q);
      DecOrder(d + 1, 10, q);
      Between(x, n, d, q, d', q', d + 1, q);
    } else {
      SizeOne();
      Between(x, n, d, q, d', q', 1, q + 1);
      DecMultiples(q);
      NoHalfDecade(x, q);
    }
  }

  lemma SizeOne()
    ensures forall d: nat :: Size(d) == 1 <==> d < 10
  {}

  lemma OneDigit(x: Magnitude, n: nat, d: nat, q: int, d': nat, q': int)
    requires LeastSize(x, n) && Fits(x, n, d, q) && Fits(x, n, d', q') && q < q'
    ensures n == 1 && d < 10 && Dec(d, q) < Dec(1, q + 1) <= Dec(d', q')
  {
    hide Dec;
    DecDecade(d, q);
    DecDecade(d', q');
    SameDecade(n + q, n + q' - 1);
    RoundConvex(Dec(d, q), Dec(1, n + q), Dec(d', q'), x);
    SizeOne();
    assert RoundTrips(x, 1, n + q);
  }

  lemma TenIsNext(q: int)
    ensures Dec(10, q) == Dec(1, q + 1) == 10.0 * Dec(1, q)
  {
    hide Shift;
    DecPad(1, q, 1);
    assert Pow(10, 1) == 10;
    ShiftTimes(10.0, 1.0, 10, q);
  }

  /** No candidate lies strictly between the two neighbours. */
  lemma Between(x: Magnitude, n: nat, d: nat, q: int, d': nat, q': int, c: nat, p: int)
    requires HighestBelow(x, n, d, q) && LowestAbove(x, n, d', q') && 0 < c && Size(c) == n
    ensures Dec(c, p) <= Dec(d, q) || Dec(d', q') <= Dec(c, p)
  {
    hide Dec, Round;
    if Dec(d, q) < Dec(c, p) < Dec(d', q') { BetweenFits(x, n, d, q, d', q', c, p); }
  }

  lemma BetweenFits(x: Magnitude, n: nat, d: nat, q: int, d': nat, q': int, c: nat, p: int)
    requires Fits(x, n, d, q) && Fits(x, n, d', q') && 0 < c && Size(c) == n
    requires Dec(d, q) < Dec(c, p) < Dec(d', q')
    ensures Fits(x, n, c, p)
  {
    hide Dec;
    RoundConvex(Dec(d, q), Dec(c, p), Dec(d', q'), x);
  }

  // ---------- the digits exist ----------

  /** Every nonzero magnitude has shortest closest digits. */
  lemma ShortestExists(x: Magnitude) returns (d: nat, q: int)
    requires x.Regular() && x.exp <= MAX_EXP && 0 < x.mant
    ensures IsShortest(x, d, q)
  {
    hide Dec, Error, Round;
    var e, t := ExactDecimal(x);
    RoundRegular(x);
    var d0, q0 := Shorten(x, e, t);
    var n := Size(d0);
    if Dec(d0, q0) <= x.Value() {
      var a, i := Raise(x, n, d0, q0, e, t);
      if c, p :| Fits(x, n, c, p) && x.Value() <= Dec(c, p) {
        var b, j := Lower(x, n, c, p, e, t);
        d, q := Closer(x, n, a, i, b, j);
      } else {
        d, q := a, i;
        OnlyBelow(x, n, a, i);
      }
    } else {
      var b, j := Lower(x, n, d0, q0, e, t);
      if c, p :| Fits(x, n, c, p) && Dec(c, p) <= x.Value() {
        var a, i := Raise(x, n, c, p, e, t);
        d, q := Closer(x, n, a, i, b, j);
      } else {
        d, q := b, j;
        OnlyAbove(x, n, b, j);
      }
    }
  }

  lemma OnlyBelow(x: Magnitude, n: nat, d: nat, q: int)
    requires LeastSize(x, n) && HighestBelow(x, n, d, q)
    requires forall c, p | Fits(x, n, c, p) :: Dec(c, p) < x.Value()
    ensures IsShortest(x, d, q)
  {
    hide Dec, Round;
    forall d', q' | RoundTrips(x, d', q') && Size(d') == Size(d) ensures Preferred(x, d, q, d', q') {
      assert Fits(x, n, d', q');
    }
  }

  lemma OnlyAbove(x: Magnitude, n: nat, d: nat, q: int)
    requires LeastSize(x, n) && LowestAbove(x, n, d, q)
    requires forall c, p | Fits(x, n, c, p) :: x.Value() < Dec(c, p)
    ensures IsShortest(x, d, q)
  {
    hide Dec, Round;
    forall d', q' | RoundTrips(x, d', q') && Size(d') == Size(d) ensures Preferred(x, d, q, d', q') {
      assert Fits(x, n, d', q');
    }
  }

  /** The closer of the two neighbours, or the even one. */
  lemma Closer(x: Magnitude, n: nat, a: nat, i: int, b: nat, j: int) returns (d: nat, q: int)
    requires x.Regular() && LeastSize(x, n) && HighestBelow(x, n, a, i) && LowestAbove(x, n, b, j)
    ensures IsShortest(x, d, q)
  {
    hide Dec, Round;
    if Dec(a, i) < Dec(b, j) && Error(x, a, i) == Error(x, b, j) { OddTie(x, n, a, i, b, j); }
    if Error(x, a, i) < Error(x, b, j) || (Error(x, a, i) == Error(x, b, j) && (a % 2 == 0 || Dec(a, i) == Dec(b, j))) {
      d, q := a, i;
    } else {
      d, q := b, j;
    }
    forall d', q' | RoundTrips(x, d', q') && Size(d') == Size(d) ensures Preferred(x, d, q, d', q') {
      assert Fits(x, n, d', q');
    }
  }

  // ---------- the assumptions can be met ----------

  /** d * 10^q as a float text of Python's grammar. */
  function Scientific(neg: bool, d: nat, q: int): Numeral {
    Numeral(neg, Digits(d), [], ExpPart(q < 0, Digits(if q < 0 then -q else q)))
  }

  lemma ScientificDenotes(neg: bool, d: nat, q: int)
    requires 0 < d
    ensures var n := Scientific(neg, d, q);
      n.WellFormed() && !n.IsInteger() && n.Coefficient() == d && n.Scale() == q && InGrammar(Spell(n)) && Read(Spell(n)) == n
  {
    hide ScanNumber;
    var n := Scientific(neg, d, q);
    NumberOfDigits(d);
    NumberOfDigits(if q < 0 then -q else q);
    assert Digits(d) + [] == Digits(d);
    ScanSpelled(n, []);
    assert Spell(n) + [] == Spell(n);
  }

  lemma TrimKeeps(d: nat, q: int)
    requires d % 10 != 0
    ensures Trim(d, q) == (d, q)
  {}

  /** Every finite double has a text that meets repr's contract. */
  lemma TextExists(x: Double) returns (r: Text)
    requires x.Finite?
    ensures ReprOk(x, r)
  {
    if x.mag.mant == 0 {
      r := ZeroSpelled(x);
    } else {
      var d, q := ShortestExists(x.mag);
      ShortestEndsNonzero(x.mag, d, q);
      r := Spell(Scientific(x.neg, d, q));
      hide IsShortest, Round, Trim, ScanNumber;
      ScientificDenotes(x.neg, d, q);
      TrimKeeps(d, q);
      ShortestRounds(x.mag, d, q);
    }
  }

  lemma ShortestRounds(x: Magnitude, d: nat, q: int)
    requires IsShortest(x, d, q)
    ensures 0 < d && Round(Dec(d, q)) == Some(x)
  {}

  lemma ZeroSpelled(x: Double) returns (r: Text)
    requires x.Finite? && x.mag.mant == 0
    ensures ReprOk(x, r)
  {
    hide Round, ScanNumber, Dec;
    var n := Numeral(x.neg, ZERO_TEXT, ZERO_TEXT, NoExp);
    r := Spell(n);
    ScanSpelled(n, []);
    assert Spell(n) + [] == Spell(n);
    NumberConcat(ZERO_TEXT, ZERO_TEXT);
    assert ZERO_TEXT == Zeros(1);
    NumberOfZeros(1);
    RoundRegular(x.mag);
    NonzeroValue(x.mag);
  }

  ghost function ReprText(x: Double): (r: Text)
    ensures x.Finite? ==> ReprOk(x, r)
  {
    if x.Finite? then
      hide ReprOk;
      assert exists r: Text :: ReprOk(x, r) by { var r := TextExists(x); }
      var r: Text :| ReprOk(x, r);
      r
    else []
  }

  /** A repr that meets the contract exists. */
  lemma ReprLawConsistent() returns (repr: Repr)
    ensures ReprLaw(repr)
  {
    hide ReprOk;
    ghost var f: Repr := x => ReprText(x);
    repr := f;
  }

  ghost function GoChoice(m: Magnitude): (r: (nat, int))
    ensures m.Regular() && m.exp <= MAX_EXP && m.mant != 0 ==> IsShortest(m, r.0, r.1)
  {
    if m.Regular() && m.exp <= MAX_EXP && m.mant != 0 then
      hide IsShortest;
      assert exists d: nat, q: int :: IsShortest(m, d, q) by { var d, q := ShortestExists(m); }
      var d: nat, q: int :| IsShortest(m, d, q);
      (d, q)
    else (0, 0)
  }

  /** So does a formatter that meets the contract of Go's strconv. */
  lemma GoLawConsistent() returns (go: GoDigits)
    ensures GoLaw(go)
  {
    hide IsShortest;
    ghost var f: GoDigits := m => GoChoice(m);
    go := f;
  }

  function Blank(n: nat): (b: Bytes)
    ensures |b| == n
  {
    seq(n, _ => 0)
  }

  /** Libraries that meet every assumption exist. */
  lemma LawsConsistent() returns (p: Platform)
    ensures Lawful(p) && Rfc8785Law(p)
  {
    hide ReprLaw, CanonicalBytes;
    var repr := ReprLawConsistent();
    p := Platform(
      repr, b => Blank(DIGEST_SIZE), seed => Blank(KEY_SIZE), (seed, m) => Blank(SIGNATURE_SIZE),
      (key, sig, m) => true, key => true, t => true, v => None, v => CanonicalBytes(repr, v));
  }
}
