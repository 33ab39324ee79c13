/** What JCS number texts promise: they are shortest, they read back, they are stable on the
    wire, the candidate's integer fast path changes nothing, and the exact-integer guard is exact. */
module NumberLaws {
  import opened Powers
  import opened Wrappers
  import opened Text
  import opened Decimal
  import opened Binary64
  import opened Shortest
  import opened Numeral
  import opened Numbers

  // ---------- the text of a double ----------

  /** The text of a nonzero double is the ECMA-262 layout of its shortest closest digits. */
  lemma TextOfDouble(repr: Repr, x: Double) returns (d: nat, q: int)
    requires ReprLaw(repr) && x.Finite? && x.mag.mant != 0
    ensures IsShortest(x.mag, d, q)
    ensures FloatText(repr, x) == Some(EsText(x.neg, d, q))
  {
    hide Trim, EsText, ScanNumber, Dec;
    assert ReprOk(x, repr(x));
    ReprNonzero(x, repr(x));
    var n := Read(repr(x));
    var t := Trim(n.Coefficient(), n.Scale());
    d, q := t.0, t.1;
  }

  /** Any two implementations of repr that meet the contract give the same JCS texts. */
  lemma ReprIndependent(repr: Repr, repr': Repr, x: Double)
    requires ReprLaw(repr) && ReprLaw(repr')
    ensures FloatText(repr, x) == FloatText(repr', x)
  {
    if x.Finite? && x.mag.mant != 0 {
      hide EsText, IsShortest, FloatText, ReprLaw;
      var d, q := TextOfDouble(repr, x);
      var d', q' := TextOfDouble(repr', x);
      ShortestUnique(x.mag, d, q, d', q');
    }
  }

  // ---------- reading numbers back ----------

  /** Python's float(text). */
  function FloatOf(n: Numeral): (x: Double)
    requires n.WellFormed()
  {
    match Round(n.Magnitude())
    case None => Infinite(n.neg)
    case Some(m) => Finite(n.neg, m)
  }

  /** Python's json: an integer literal becomes an int, anything else a float. */
  function NumOf(n: Numeral): Num
    requires n.WellFormed()
  {
    if n.IsInteger() then IntNum(if n.neg then 0 - Number(n.whole) else Number(n.whole))
    else FloatNum(FloatOf(n))
  }

  /** A double up to the sign of zero. */
  function Unsigned(x: Double): Double {
    if x.Finite? && x.mag.mant == 0 then ZERO else x
  }

  lemma IntegerMagnitude(n: Numeral)
    requires n.WellFormed() && n.IsInteger()
    ensures n.Magnitude() == Number(n.whole) as real
  {
    hide Shift;
    assert n.whole + n.frac == n.whole;
    ShiftZero(Number(n.whole) as real, 10);
  }

  /** A numeral is converted by its value alone, through the integer path or the float path. */
  lemma NumOfRounds(n: Numeral, m: Magnitude)
    requires n.WellFormed() && 0.0 < n.Magnitude() && Round(n.Magnitude()) == Some(m)
    ensures m.Regular() && m.exp <= MAX_EXP && ToDouble(NumOf(n)) == Some(Finite(n.neg, m))
  {
    hide Dec, Round, Numeral.Magnitude;
    if n.IsInteger() {
      IntegerMagnitude(n);
      var k := if n.neg then 0 - Number(n.whole) else Number(n.whole);
      assert (if k < 0 then -k else k) == Number(n.whole);
    }
  }

  lemma ScanZero(rest: Text)
    requires EndsNumber(rest)
    ensures ScanNumber(ZERO_TEXT + rest) == Some((Numeral(false, ZERO_TEXT, [], NoExp), rest))
    ensures NumOf(Numeral(false, ZERO_TEXT, [], NoExp)) == IntNum(0)
  {
    var z := Numeral(false, ZERO_TEXT, [], NoExp);
    assert Spell(z) == ZERO_TEXT;
    ScanSpelled(z, rest);
    assert Number(ZERO_TEXT) == 0 by { assert ZERO_TEXT[..0] == []; }
  }

  /** Wire closure: the text of a finite double is a JSON number that reads back, as an int
      when it looks like one and as a float otherwise, to the same double up to the sign of
      zero, and so serialises to the same text again. */
  lemma WireClosure(repr: Repr, x: Double, rest: Text) returns (n: Numeral)
    requires ReprLaw(repr) && x.Finite? && EndsNumber(rest)
    ensures n.WellFormed()
    ensures ScanNumber(FloatText(repr, x).value + rest) == Some((n, rest))
    ensures ScanNumber(FloatText(repr, x).value) == Some((n, []))
    ensures ToDouble(NumOf(n)) == Some(Unsigned(x))
    ensures NumberText(repr, NumOf(n)) == FloatText(repr, x)
  {
    hide ScanNumber, EsText, EsNumeral, NumOf, Round, Dec, Relaid, Spell, Numeral.Magnitude;
    if x.mag.mant == 0 {
      ScanZero(rest);
      ScanZero([]);
      assert ZERO_TEXT + [] == ZERO_TEXT;
      n := Numeral(false, ZERO_TEXT, [], NoExp);
    } else {
      var d, q := TextOfDouble(repr, x);
      n := EsNumeral(x.neg, Digits(d), Size(d) + q);
      EsTextSpells(x.neg, d, q);
      EsTextDenotes(x.neg, d, q);
      EsNumeralSign(x.neg, Digits(d), Size(d) + q);
      ScanSpelled(n, rest);
      ScanSpelled(n, []);
      assert Spell(n) + [] == Spell(n);
      NumOfRounds(n, x.mag);
    }
  }

  /** Different doubles, zeros aside, never share a text. */
  lemma TextsDistinct(repr: Repr, x: Double, y: Double)
    requires ReprLaw(repr) && x.Finite? && y.Finite?
    ensures FloatText(repr, x) == FloatText(repr, y) <==> Unsigned(x) == Unsigned(y)
  {
    hide NumOf, ScanNumber, ReprLaw;
    var n := WireClosure(repr, x, []);
    var m := WireClosure(repr, y, []);
  }

  // ---------- integers ----------

  /** The candidate's number path: str(n) below 2^53, the float path above. */
  method EsNumber(repr: Repr, v: Num) returns (s: Option<Text>)
    requires ReprLaw(repr)
    ensures s == NumberText(repr, v)
  {
    var value := v;
    if v.IntNum? {
      if AbsInt(v.n) < TWO53 {
        FastForm(repr, v.n);
        return Some(StrOfInt(v.n));
      }
      var x := IntToDouble(v.n);
      if x.None? { return None; }
      value := FloatNum(x.value);
    }
    s := JcsDouble(repr, value.x);
  }

  /** Python's str of an int. */
  function StrOfInt(n: int): Text {
    Sign(n < 0) + Digits(AbsInt(n))
  }

  /** Below 2^53 the decimal spelling of an integer is its JCS text. */
  lemma FastForm(repr: Repr, n: int)
    requires ReprLaw(repr) && AbsInt(n) < TWO53
    ensures NumberText(repr, IntNum(n)) == Some(StrOfInt(n))
  {
    hide FloatText, ReprLaw, Digits, Round, RoundUnbounded;
    if n == 0 {
      ZeroText(repr);
      assert StrOfInt(0) == Digits(0);
    } else {
      IntegerRounds(AbsInt(n));
      IntegerText(repr, n < 0, AbsInt(n));
    }
  }

  lemma ZeroText(repr: Repr)
    ensures FloatText(repr, ZERO) == Some(Digits(0))
  {
    assert Digits(0) == ZERO_TEXT;
  }

  lemma IntegerText(repr: Repr, neg: bool, a: nat)
    requires ReprLaw(repr) && 0 < a < TWO53
    requires Round(a as real).Some? && Round(a as real).value.mant != 0
    ensures FloatText(repr, Finite(neg, Round(a as real).value)) == Some(Sign(neg) + Digits(a))
  {
    hide FloatText, EsText, IsShortest, Dec, ReprLaw, Digits, Round;
    var d, q := TextOfDouble(repr, Finite(neg, Round(a as real).value));
    ShortestOfInteger(a, d, q);
    assert 0 < d by { ShortestPositive(Round(a as real).value, d, q); }
    IntegerLayout(neg, a, d, q);
  }

  lemma ShortestPositive(x: Magnitude, d: nat, q: int)
    requires IsShortest(x, d, q)
    ensures 0 < d
  {}

  lemma IntegerRounds(a: nat)
    requires 0 < a < TWO53
    ensures Round(a as real).Some? && Round(a as real).value.mant != 0
  {
    hide Shift;
    IntegerValue(a);
    ShiftOrder(0.0, 0.0, 2, Round(a as real).value.exp);
  }

  lemma IntegerLayout(neg: bool, a: nat, d: nat, q: nat)
    requires 0 < d && Dec(d, q) == a as real && 0 < a < TWO53
    ensures EsText(neg, d, q) == Sign(neg) + Digits(a)
  {
    hide Dec, Digits;
    var s := Digits(d);
    DecInteger(d, q);
    NumberOfDigits(d);
    NumberConcat(s, Zeros(q));
    NumberOfZeros(q);
    DigitsOfNumber(s + Zeros(q));
    SixteenDigits(a);
  }

  lemma SixteenDigits(a: nat)
    requires a < TWO53
    ensures |Digits(a)| <= 16
  {
    PowAdd(10, 2, 2);
    PowAdd(10, 4, 4);
    PowAdd(10, 8, 8);
    SizeAtMost(a, 16);
  }

  // ---------- the constructors' guard ----------

  /** int(x) for a finite float. */
  function Truncated(x: Double): int
    requires x.Finite?
  {
    hide Shift;
    ShiftOrder(0.0, x.mag.mant as real, 2, x.mag.exp);
    var t := x.mag.Value().Floor;
    if x.neg then -t else t
  }

  /** _check_application_numbers on an integer. */
  predicate ExactInteger(n: int) {
    var x := IntToDouble(n);
    x.Some? && Truncated(x.value) == n
  }

  ghost predicate Representable(n: int) {
    AbsInt(n) < Pow(2, 1024) && exists m: nat, e: nat :: HasForm(n, m, e)
  }

  predicate HasForm(n: int, m: nat, e: nat) { m < TWO53 && AbsInt(n) == m * Pow(2, e) }

  /** The guard admits exactly the integers that are binary64 values. */
  lemma GuardExact(n: int)
    ensures ExactInteger(n) <==> Representable(n)
  {
    if ExactInteger(n) { GuardSound(n); }
    if Representable(n) {
      var m: nat, e: nat :| HasForm(n, m, e);
      GuardComplete(n, m, e);
    }
  }

  /** An integer equal to the floor of its own rounding is that rounding. */
  lemma ExactMagnitude(n: int)
    requires ExactInteger(n) && n != 0
    ensures var m := Round(AbsInt(n) as real); m.Some? && m.value.Value() == AbsInt(n) as real
  {
    hide Shift;
    var m := Round(AbsInt(n) as real).value;
    var v := m.Value();
    ShiftOrder(0.0, m.mant as real, 2, m.exp);
    assert v.Floor == AbsInt(n);
    FloorIsExact(AbsInt(n));
  }

  /** Rounding an integer cannot give a fraction. */
  lemma FloorIsExact(a: nat)
    requires RoundUnbounded(a as real).Value().Floor == a
    ensures RoundUnbounded(a as real).Value() == a as real
  {
    hide Shift;
    var x := RoundUnbounded(a as real);
    if a <= TWO53 {
      IntegerValue(a);
    } else {
      // the rounding of a number above 2^53 is an integer
      IntegerValue(TWO53);
      RoundMono(TWO53 as real, a as real);
      if x.exp < 0 {
        ExponentOrder(x, Magnitude(TWO52, 0));
        ShiftZero(TWO52 as real, 2);
      }
      ShiftPow(x.mant, 2, x.exp);
    }
  }

  lemma GuardSound(n: int)
    requires ExactInteger(n)
    ensures Representable(n)
  {
    hide Shift;
    Pow2Large();
    if n == 0 {
      assert HasForm(0, 0, 0);
    } else {
      ExactMagnitude(n);
      var a, m := AbsInt(n), Round(AbsInt(n) as real).value;
      BelowMax(m);
      if 0 <= m.exp {
        ShiftPow(m.mant, 2, m.exp);
        assert HasForm(n, m.mant, m.exp);
      } else {
        ShiftUp(m.mant as real / 2.0, 2, m.exp, 0);
        ShiftZero(m.mant as real / 2.0, 2);
        assert Pow(2, 0) == 1;
        assert HasForm(n, a, 0);
      }
    }
  }

  lemma Pow2Large()
    ensures Shift(TWO53 as real, 2, MAX_EXP) == Pow(2, 1024) as real
    ensures Shift(TWO52 as real, 2, MAX_EXP + 1) == Pow(2, 1024) as real
  {
    hide Shift;
    Pow53();
    PowAdd(2, 53, 971);
    ShiftPow(TWO53, 2, 971);
    ShiftStep(TWO52 as real, 2, MAX_EXP);
  }

  lemma Pow53()
    ensures Pow(2, 53) == TWO53
  {
    assert Pow(2, 13) == 8192;
    PowAdd(2, 13, 13);
    PowAdd(2, 26, 26);
    PowAdd(2, 52, 1);
  }

  lemma BelowMax(m: Magnitude)
    requires m.Regular() && m.exp <= MAX_EXP
    ensures m.Value() < Pow(2, 1024) as real
  {
    hide Shift, Pow;
    Pow2Large();
    ShiftOrder(m.mant as real, TWO53 as real, 2, m.exp);
    if m.exp < MAX_EXP {
      ExponentOrder(m, Magnitude(TWO52, MAX_EXP));
      ShiftOrder(TWO52 as real, TWO53 as real, 2, MAX_EXP);
    }
  }

  lemma GuardComplete(n: int, m: nat, e: nat)
    requires HasForm(n, m, e) && AbsInt(n) < Pow(2, 1024)
    ensures ExactInteger(n)
  {
    hide Shift, Pow;
    ShiftOrder(0.0, 0.0, 2, MIN_EXP);
    if n != 0 {
      var a := AbsInt(n);
      ShiftPow(m, 2, e);
      RoundExact(m, e);
      var x := RoundUnbounded(a as real);
      Pow2Large();
      if MAX_EXP < x.exp {
        if MAX_EXP + 1 < x.exp { ExponentOrder(Magnitude(TWO52, MAX_EXP + 1), x); }
        ShiftOrder(TWO52 as real, x.mant as real, 2, MAX_EXP + 1);
      }
      assert (a as real).Floor == a;
    }
  }

  /** Integers past the guard are told apart by the doubles they become. */
  lemma GuardInjective(a: int, b: int)
    requires ExactInteger(a) && ExactInteger(b) && IntToDouble(a) == IntToDouble(b)
    ensures a == b
  {}

  // ---------- which integers are doubles at all ----------

  /** A number overflows exactly from halfway between the largest double and the next power of two. */
  lemma RoundOverflow(r: real)
    requires r >= 0.0
    ensures Round(r).None? <==> Shift(TWO53 as real - 0.5, 2, MAX_EXP) <= r
  {
    hide Shift;
    var (y, e) := Scaled(r);
    var half := TWO53 as real - 0.5;
    if e < MAX_EXP {
      NearestEvenRange(y);
      ShiftOrder(y, TWO53 as real, 2, e);
      ShiftUp(TWO52 as real, 2, e, MAX_EXP);
      ShiftOrder(TWO52 as real, half, 2, MAX_EXP);
    } else if e == MAX_EXP {
      ShiftOrder(half, y, 2, e);
    } else {
      ShiftUp(TWO52 as real, 2, MAX_EXP, e);
      ShiftOrder(half, TWO53 as real, 2, MAX_EXP);
      ShiftOrder(TWO52 as real, y, 2, e);
    }
  }

  lemma OverflowBound()
    ensures Shift(TWO53 as real - 0.5, 2, MAX_EXP) == (Pow(2, 1024) - Pow(2, 970)) as real
  {
    hide Shift, Pow;
    ShiftStep(TWO53 as real - 0.5, 2, 970);
    assert 2 as real * (TWO53 as real - 0.5) == (2 * TWO53 - 1) as real;
    ShiftPow(2 * TWO53 - 1, 2, 970);
    Pow53();
    PowAdd(2, 53, 1);
    PowOne();
    PowAdd(2, 54, 970);
    Distribute(2 * TWO53, Pow(2, 970));
  }

  lemma PowOne()
    ensures Pow(2, 1) == 2
  {}

  lemma Distribute(a: nat, b: nat)
    requires 0 < a
    ensures (a - 1) * b == a * b - b
  {}

  /** float(n) raises exactly from 2^1024 - 2^970 on, in magnitude. */
  lemma IntegerRange(n: int)
    ensures IntToDouble(n).Some? <==> AbsInt(n) < Pow(2, 1024) - Pow(2, 970)
  {
    hide Shift, Pow;
    OverflowBound();
    RoundOverflow(AbsInt(n) as real);
    ShiftOrder(0.0, TWO53 as real - 0.5, 2, MAX_EXP);
  }
}
