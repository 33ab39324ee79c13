/** The Go generator's number formatting: it chooses the format by comparing magnitudes, and
    trims the exponent in its byte buffer. */
module GoNumber {
  import opened Powers
  import opened Wrappers
  import opened Text
  import opened Decimal
  import opened Binary64
  import opened Shortest
  import opened Numeral
  import opened Numbers
  import opened NumberLaws

  /** The digits strconv prints with precision -1. */
  type GoDigits = Magnitude -> (nat, int)

  ghost predicate GoLaw(go: GoDigits) {
    forall m: Magnitude | m.Regular() && m.exp <= MAX_EXP && m.mant != 0 ::
      IsShortest(m, go(m).0, go(m).1)
  }

  // ---------- strconv.AppendFloat with precision -1 ----------

  /** Format 'f'. */
  function FormatFixed(s: Text, n: int): Text
    requires 0 < |s|
  {
    (if n <= 0 then [ZERO_CHAR] else if n <= |s| then s[..n] else s + Zeros(n - |s|))
    + (if |s| <= n then []
       else [DOT] + if n < 0 then Zeros(-n) + s else s[n..])
  }

  /** Format 'e': at least two exponent digits. */
  function FormatExp(s: Text, n: int): Text
    requires 0 < |s|
  {
    [s[0]] + (if |s| > 1 then [DOT] + s[1..] else [])
    + [LOWER_E, if n - 1 < 0 then MINUS else PLUS]
    + (if AbsInt(n - 1) < 10 then [ZERO_CHAR] else []) + Digits(AbsInt(n - 1))
  }

  function AppendFloat(go: GoDigits, x: Double, exponent: bool): Text
    requires x.Finite?
  {
    if x.mag.mant == 0 then Sign(x.neg) + ZERO_TEXT
    else
      var (d, q) := go(x.mag);
      Sign(x.neg) + if exponent then FormatExp(Digits(d), Size(d) + q) else FormatFixed(Digits(d), Size(d) + q)
  }

  /** The double that the constant 10^j of the program is. */
  function Constant(j: int): Magnitude
    requires j == -6 || j == 21
  {
    ConstantsInRange();
    Round(Dec(1, j)).value
  }

  lemma ConstantsInRange()
    ensures Round(Dec(1, -6)).Some? && Round(Dec(1, 21)).Some?
    ensures Shift(TWO53 as real, 2, MIN_EXP) <= Dec(1, -6) <= Dec(1, 21)
  {
    hide Dec, Shift, Round;
    DecadeOrder(-6, 21);
    LargeInRange();
    RoundMono(Dec(1, -6), Dec(1, 21));
    SmallInRange();
  }

  lemma LargeInRange()
    ensures Round(Dec(1, 21)).Some?
  {
    hide Shift, Round, Dec;
    PowAdd(10, 2, 2);
    PowAdd(10, 4, 4);
    PowAdd(10, 8, 8);
    PowAdd(10, 16, 5);
    DecInteger(1, 21);
    PowAdd(2, 4, 6);
    PowAdd(2, 10, 10);
    ShiftPow(TWO52, 2, 20);
    var m := Magnitude(TWO52, 20);
    assert m.Regular();
    RoundRegular(m);
    RoundMono(Dec(1, 21), m.Value());
  }

  lemma SmallInRange()
    ensures Shift(TWO53 as real, 2, MIN_EXP) <= Dec(1, -6)
  {
    ShiftUp(TWO53 as real, 2, MIN_EXP, -73);
    Pow53();
    ShiftPow(1, 2, 53);
    ShiftAdd(1.0, 2, 53, -73);
    PowAdd(2, 4, 6);
    PowAdd(2, 10, 10);
    PowAdd(10, 2, 4);
    InversePowers();
    hide Shift;
    ShiftOrder(TWO53 as real, 2.0 * TWO53 as real, 2, MIN_EXP);
  }

  lemma InversePowers()
    requires Pow(2, 20) == 1048576 && Pow(10, 6) == 1000000
    ensures Shift(1.0, 2, -20) < Shift(1.0, 10, -6)
  {
    hide Shift;
    ShiftIsProduct(1.0, 2, -20);
    ShiftIsProduct(1.0, 10, -6);
  }

  // ---------- appendNumber ----------

  class Buffer {
    var b: Text

    constructor ()
      ensures b == []
    {
      b := [];
    }

    /** Canonical formatting appended to the buffer: the same text as the Python layout. */
    method AppendNumber(go: GoDigits, ghost repr: Repr, x: Double)
      requires x.Finite? && GoLaw(go) && ReprLaw(repr)
      modifies this
      ensures FloatText(repr, x).Some? && b == old(b) + FloatText(repr, x).value
    {
      hide Dec, Round, GoLaw, ReprLaw, AppendFloat, FloatText, Magnitude.Value, Constant;
      var f := Unsigned(x);
      var exponent := false;
      var abs := f.mag.Value();
      if (abs != 0.0 && abs < Constant(-6).Value()) || Constant(21).Value() <= abs {
        exponent := true;
      }
      FormatChoice(go, repr, x, exponent);
      ghost var t := AppendFloat(go, f, exponent);
      if exponent { TrimSuffix(b, t); }
      b := b + AppendFloat(go, f, exponent);
      if exponent {
        var n := |b|;
        if n >= 4 && b[n - 4] == LOWER_E && b[n - 3] == MINUS && b[n - 2] == ZERO_CHAR {
          b := b[n - 2 := b[n - 1]];
          b := b[..n - 1];
        }
      }
    }
  }

  /** What the trim leaves of a text. */
  function Trimmed(t: Text): Text {
    var n := |t|;
    if n >= 4 && t[n - 4] == LOWER_E && t[n - 3] == MINUS && t[n - 2] == ZERO_CHAR
    then t[n - 2 := t[n - 1]][..n - 1] else t
  }

  /** Choosing by magnitude and trimming gives the text that choosing by decimal exponent gives. */
  lemma FormatChoice(go: GoDigits, repr: Repr, x: Double, exponent: bool)
    requires x.Finite? && GoLaw(go) && ReprLaw(repr)
    requires var abs := Unsigned(x).mag.Value();
      exponent <==> (abs != 0.0 && abs < Constant(-6).Value()) || Constant(21).Value() <= abs
    ensures var t := AppendFloat(go, Unsigned(x), exponent);
      && FloatText(repr, x) == Some(if exponent then Trimmed(t) else t)
      && (exponent ==> 4 <= |t|)
  {
    hide Dec, Round, GoLaw, ReprLaw, FormatExp, FormatFixed, EsLayout, Digits, Relaid, Trimmed, IsShortest;
    if x.mag.mant == 0 {
      ZeroIsFixed();
      assert Sign(false) + ZERO_TEXT == ZERO_TEXT;
    } else {
      var d, q := TextOfDouble(repr, x);
      var (d', q') := go(x.mag);
      assert IsShortest(x.mag, d', q') by { GoShortest(go, x.mag); }
      ShortestUnique(x.mag, d, q, d', q');
      ShortestPositive(x.mag, d, q);
      ConstantsInRange();
      PowerThreshold(x.mag, d, q, -6);
      PowerThreshold(x.mag, d, q, 21);
      NonzeroValue(x.mag);
      SameLayout(x.neg, d, Size(d) + q);
    }
  }

  lemma GoShortest(go: GoDigits, m: Magnitude)
    requires GoLaw(go) && m.Regular() && m.exp <= MAX_EXP && m.mant != 0
    ensures IsShortest(m, go(m).0, go(m).1)
  {}

  lemma NonzeroValue(m: Magnitude)
    ensures m.Value() == 0.0 <==> m.mant == 0
    ensures 0.0 <= m.Value()
  {
    hide Shift;
    ShiftOrder(0.0, m.mant as real, 2, m.exp);
    ShiftOrder(m.mant as real, 0.0, 2, m.exp);
  }

  lemma ZeroIsFixed()
    ensures ZERO.mag.Value() == 0.0 && 0.0 < Constant(21).Value()
  {
    NonzeroValue(ZERO.mag);
    NonzeroValue(Constant(21));
    ConstantsInRange();
    PositiveRounding(Dec(1, 21));
  }

  lemma PositiveRounding(r: real)
    requires Shift(TWO53 as real, 2, MIN_EXP) <= r && 0.0 < r
    ensures RoundUnbounded(r).Value() != 0.0
  {
    hide Shift, RoundUnbounded, Magnitude.Value;
    RelativeError(r);
  }

  lemma SameLayout(neg: bool, d: nat, n: int)
    requires 0 < d
    ensures var s := Digits(d); var text := Sign(neg) + EsLayout(s, n);
      && (-6 < n <= 21 ==> text == Sign(neg) + FormatFixed(s, n))
      && (!(-6 < n <= 21) ==> text == Trimmed(Sign(neg) + FormatExp(s, n)) && 4 <= |FormatExp(s, n)|)
  {
    hide Digits;
    var s := Digits(d);
    if -6 < n <= 21 {
      FixedLayout(s, n);
    } else {
      ExponentLayout(s, n);
      var t := FormatExp(s, n);
      assert Trimmed(Sign(neg) + t) == Sign(neg) + Trimmed(t) by { TrimSuffix(Sign(neg), t); }
    }
  }

  lemma FixedLayout(s: Text, n: int)
    requires 0 < |s| && -6 < n <= 21
    ensures FormatFixed(s, n) == EsLayout(s, n)
  {
    if |s| <= n {
    } else if 0 < n {
      assert s[..n] + [DOT] + s[n..] == s[..n] + ([DOT] + s[n..]);
    } else {
      assert [ZERO_CHAR, DOT] + Zeros(-n) + s == [ZERO_CHAR] + ([DOT] + (Zeros(-n) + s));
      assert n == 0 ==> Zeros(0) + s == s[0..];
    }
  }

  lemma TrimSuffix(a: Text, t: Text)
    requires 4 <= |t|
    ensures Trimmed(a + t) == a + Trimmed(t)
  {
    var n, m := |a + t|, |t|;
    assert (a + t)[n - 4] == t[m - 4] && (a + t)[n - 3] == t[m - 3] && (a + t)[n - 2] == t[m - 2] && (a + t)[n - 1] == t[m - 1];
    assert (a + t)[n - 2 := t[m - 1]][..n - 1] == a + t[m - 2 := t[m - 1]][..m - 1];
  }

  lemma ExponentLayout(s: Text, n: int)
    requires 0 < |s| && !(-6 < n <= 21)
    ensures 4 <= |FormatExp(s, n)|
    ensures Trimmed(FormatExp(s, n)) == EsLayout(s, n)
  {
    hide Digits;
    var e := AbsInt(n - 1);
    var ds := Digits(e);
    var mantissa := [s[0]] + (if |s| > 1 then [DOT] + s[1..] else []);
    var head := [LOWER_E, if n - 1 < 0 then MINUS else PLUS];
    assert EsLayout(s, n) == mantissa + (head + ds) by { EsExponentLayout(s, n); }
    var tail := head + ((if e < 10 then [ZERO_CHAR] else []) + ds);
    assert FormatExp(s, n) == mantissa + tail by { FormatExpParts(s, n); }
    ExponentTail(e, n - 1 < 0);
    TrimSuffix(mantissa, tail);
  }

  lemma EsExponentLayout(s: Text, n: int)
    requires 0 < |s| && !(-6 < n <= 21)
    ensures EsLayout(s, n) == ([s[0]] + (if |s| > 1 then [DOT] + s[1..] else []))
      + ([LOWER_E, if n - 1 < 0 then MINUS else PLUS] + Digits(AbsInt(n - 1)))
  {
    hide Digits;
    if |s| == 1 { assert s == [s[0]] + []; }
  }

  lemma FormatExpParts(s: Text, n: int)
    requires 0 < |s|
    ensures FormatExp(s, n) == ([s[0]] + (if |s| > 1 then [DOT] + s[1..] else []))
      + ([LOWER_E, if n - 1 < 0 then MINUS else PLUS]
         + ((if AbsInt(n - 1) < 10 then [ZERO_CHAR] else []) + Digits(AbsInt(n - 1))))
  {
    hide Digits;
  }

  /** Only a padded single negative exponent digit is trimmed. */
  lemma ExponentTail(e: nat, neg: bool)
    requires neg || 10 <= e
    ensures var head := [LOWER_E, if neg then MINUS else PLUS];
      var tail := head + ((if e < 10 then [ZERO_CHAR] else []) + Digits(e));
      4 <= |tail| && Trimmed(tail) == head + Digits(e)
  {
    hide Digits, Trimmed;
    DigitsLength(e);
    NumberOfDigits(e);
    if e < 10 { PaddedTail(Digits(e)); } else { PlainTail(if neg then MINUS else PLUS, Digits(e)); }
  }

  lemma DigitsLength(e: nat)
    ensures e < 10 <==> |Digits(e)| == 1
  {}

  lemma PaddedTail(ds: Text)
    requires |ds| == 1
    ensures Trimmed([LOWER_E, MINUS] + ([ZERO_CHAR] + ds)) == [LOWER_E, MINUS] + ds
  {
    assert [LOWER_E, MINUS] + ([ZERO_CHAR] + ds) == [LOWER_E, MINUS, ZERO_CHAR, ds[0]];
  }

  lemma PlainTail(sign: CodePoint, ds: Text)
    requires 2 <= |ds| && AllDigits(ds) && ds[0] != ZERO_CHAR && sign in [PLUS, MINUS]
    ensures Trimmed([LOWER_E, sign] + ([] + ds)) == [LOWER_E, sign] + ds
  {
    var tail := [LOWER_E, sign] + ([] + ds);
    assert tail == [LOWER_E, sign] + ds;
    assert |ds| == 3 ==> tail[|tail| - 4] == sign;
    assert |ds| > 3 ==> tail[|tail| - 4] == ds[|ds| - 4];
  }
}
