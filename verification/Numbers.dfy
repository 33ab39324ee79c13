/** JCS number serialisation: repr re-laid in ECMAScript form, the integer path, the exact
    integer guard of the constructors, and the integer fast path of the candidate. */
module Numbers {
  import opened Powers
  import opened Wrappers
  import opened Text
  import opened Decimal
  import opened Binary64
  import opened Shortest
  import opened Numeral

  // ---------- Python's repr of floats ----------

  type Repr = Double -> Text

  /** The texts of Python's float-repr grammar, and of its integer literals. */
  predicate InGrammar(r: Text) {
    var s := ScanNumber(r);
    s.Some? && s.value.1 == [] && Spell(s.value.0) == r
  }

  function Read(r: Text): (n: Numeral)
    requires InGrammar(r)
    ensures n.WellFormed() && Spell(n) == r
  {
    ScanNumber(r).value.0
  }

  /** What is assumed of repr: it spells a float, with its sign, by digits that read back to
      it and that, leaving zeros aside, are its shortest closest ones. */
  ghost predicate ReprOk(x: Double, r: Text)
    requires x.Finite?
  {
    && InGrammar(r)
    && var n := Read(r);
    && n.neg == x.neg && !n.IsInteger()
    && Round(n.Magnitude()) == Some(x.mag)
    && (x.mag.mant != 0 ==> var (d, q) := Trim(n.Coefficient(), n.Scale()); IsShortest(x.mag, d, q))
  }

  ghost predicate ReprLaw(repr: Repr) {
    forall x: Double | x.Finite? :: ReprOk(x, repr(x))
  }

  // ---------- specification ----------

  const ZERO_TEXT: Text := [ZERO_CHAR]

  /** A repr text in ECMAScript form. */
  function Relaid(r: Text): Text {
    if InGrammar(r) && 0 < Read(r).Coefficient() then
      var n := Read(r);
      var (d, q) := Trim(n.Coefficient(), n.Scale());
      EsText(n.neg, d, q)
    else ZERO_TEXT
  }

  function FloatText(repr: Repr, x: Double): Option<Text> {
    if !x.Finite? then None
    else if x.mag.mant == 0 then Some(ZERO_TEXT)
    else Some(Relaid(repr(x)))
  }

  /** Python's float(n); None is OverflowError. */
  function IntToDouble(n: int): (x: Option<Double>)
    ensures x.Some? ==> x.value.Finite?
  {
    if n == 0 then Some(ZERO)
    else match Round(AbsInt(n) as real)
      case None => None
      case Some(m) => Some(Finite(n < 0, m))
  }

  /** A parsed JSON number: Python's json makes integers of integer literals. */
  datatype Num = IntNum(n: int) | FloatNum(x: Double)

  function ToDouble(v: Num): Option<Double> {
    match v
    case IntNum(n) => IntToDouble(n)
    case FloatNum(x) => Some(x)
  }

  function NumberText(repr: Repr, v: Num): Option<Text> {
    var x :- ToDouble(v);
    FloatText(repr, x)
  }

  // ---------- _jcs_double ----------

  /** First position of c in t, or |t|. */
  function Find(t: Text, c: CodePoint): (i: nat)
    ensures i <= |t| && (i < |t| <==> c in t) && (i < |t| ==> t[i] == c)
  {
    if t == [] || t[0] == c then 0 else 1 + Find(t[1..], c)
  }

  /** t.replace(c, ""). */
  function Without(t: Text, c: CodePoint): Text {
    if t == [] then [] else (if t[0] == c then [] else [t[0]]) + Without(t[1..], c)
  }

  /** Python's int(t) for the exponent of a repr: a sign, then digits. */
  function PyInt(t: Text): int
    requires 1 < |t| && (t[0] == PLUS || t[0] == MINUS) && AllDigits(t[1..])
  {
    if t[0] == MINUS then 0 - Number(t[1..]) else Number(t[1..])
  }

  lemma {:induction false} FindAfter(a: Text, b: Text, c: CodePoint)
    requires c !in a
    ensures Find(a + b, c) == |a| + Find(b, c)
  {
    if a == [] {
      assert a + b == b;
    } else {
      assert (a + b)[1..] == a[1..] + b;
      FindAfter(a[1..], b, c);
    }
  }

  lemma {:induction false} WithoutSplit(a: Text, b: Text, c: CodePoint)
    requires c !in a
    ensures Without(a + b, c) == a + Without(b, c)
  {
    if a == [] {
      assert a + b == b;
    } else {
      assert (a + b)[1..] == a[1..] + b;
      WithoutSplit(a[1..], b, c);
    }
  }

  lemma NotDigit(t: Text, c: CodePoint)
    requires AllDigits(t) && !IsDigit(c)
    ensures c !in t
  {}

  /** The mantissa of a numeral: its dot found, its dot removed. */
  lemma MantissaParts(whole: Text, frac: Text)
    requires AllDigits(whole) && AllDigits(frac)
    ensures var m := whole + SpellFrac(frac);
      && Without(m, DOT) == whole + frac && LOWER_E !in m
      && Find(m, DOT) == |whole| && (DOT in m <==> frac != [])
      && (frac != [] ==> m[..|whole|] == whole && m[|whole| + 1..] == frac)
  {
    hide Without, Find;
    NotDigit(whole, DOT);
    NotDigit(frac, DOT);
    NotDigit(whole, LOWER_E);
    NotDigit(frac, LOWER_E);
    FindAfter(whole, SpellFrac(frac), DOT);
    WithoutSplit(whole, SpellFrac(frac), DOT);
    DotFirst(frac);
  }

  lemma DotFirst(frac: Text)
    requires DOT !in frac
    ensures Without(SpellFrac(frac), DOT) == frac && Find(SpellFrac(frac), DOT) == 0
  {
    if frac != [] {
      assert ([DOT] + frac)[1..] == frac;
      WithoutSplit(frac, [], DOT);
      assert frac + [] == frac;
    }
  }

  lemma ExponentParts(m: Text, exp: Exponent)
    requires LOWER_E !in m && exp.WellFormed()
    ensures var r := m + SpellExp(exp); var i := Find(r, LOWER_E);
      && (LOWER_E in r <==> exp.ExpPart?)
      && (exp.NoExp? ==> r == m)
      && (exp.ExpPart? ==>
            && r[..i] == m && var t := r[i + 1..];
            && 1 < |t| && (t[0] == PLUS || t[0] == MINUS) && AllDigits(t[1..])
            && PyInt(t) == exp.Value())
  {
    var r := m + SpellExp(exp);
    FindAfter(m, SpellExp(exp), LOWER_E);
    if exp.ExpPart? {
      var t := r[|m| + 1..];
      assert t == [if exp.neg then MINUS else PLUS] + exp.digits;
      assert t[1..] == exp.digits;
    } else {
      assert r == m;
    }
  }

  lemma {:induction false} TrimZeros(m: nat, z: nat, q: int)
    requires m % 10 != 0
    ensures Trim(m * Pow(10, z), q) == (m, q + z)
  {
    if z > 0 {
      TenDivides(m, z);
      assert 0 < m * Pow(10, z - 1);
      TrimZeros(m, z - 1, q + 1);
    }
  }

  /** Stripping zeros on both sides of the digit string is trimming the decimal. */
  lemma StripIsTrim(t: Text, q: int)
    requires AllDigits(t) && 0 < Number(t)
    ensures var l := StripLeft(t); var r := StripRight(l); var (d, p) := Trim(Number(t), q);
      l != [] && r != [] && r == Digits(d) && |l| + q == |r| + p && 0 < d
  {
    var l := StripLeft(t);
    StripLeftZeros(t);
    assert AllDigits(l) by { assert forall i | 0 <= i < |l| :: l[i] == t[|t| - |l| + i]; }
    NumberConcat(Zeros(|t| - |l|), l);
    NumberOfZeros(|t| - |l|);
    assert Number(l) == Number(t);
    StripRightIsTrim(l, q);
  }

  lemma StripRightIsTrim(l: Text, q: int)
    requires AllDigits(l) && 0 < Number(l) && l != [] && l[0] != ZERO_CHAR
    ensures var r := StripRight(l); var (d, p) := Trim(Number(l), q);
      r != [] && r == Digits(d) && |l| + q == |r| + p && 0 < d
  {
    var r := StripRight(l);
    var z := |l| - |r|;
    StripRightZeros(l);
    assert l[0] == (r + Zeros(z))[0];
    assert AllDigits(r) && r[0] == l[0] by { assert forall i | 0 <= i < |r| :: r[i] == l[i]; }
    NumberConcat(r, Zeros(z));
    NumberOfZeros(z);
    DigitsOfNumber(r);
    TrimZeros(Number(r), z, q);
  }

  /** The digit string and the position of the decimal point of an unsigned repr text. */
  method SplitDigits(r: Text, ghost num: Numeral) returns (digits: Text, n: int)
    requires num.WellFormed() && r == (num.whole + SpellFrac(num.frac)) + SpellExp(num.exp)
    ensures digits == num.whole + num.frac && n == |digits| + num.Scale()
  {
    hide Without, PyInt, Number;
    MantissaParts(num.whole, num.frac);
    ExponentParts(num.whole + SpellFrac(num.frac), num.exp);
    if LOWER_E in r {
      var i := Find(r, LOWER_E);
      var mant, exp := r[..i], PyInt(r[i + 1..]);
      digits := Without(mant, DOT);
      n := (if DOT in mant then Find(mant, DOT) else |mant|) + exp;
    } else if DOT in r {
      var i := Find(r, DOT);
      var intPart, frac := r[..i], r[i + 1..];
      digits := intPart + frac;
      n := |intPart|;
    } else {
      digits, n := r, |r|;
      assert digits == num.whole + num.frac;
    }
  }

  /** The five layouts: whichever is taken, the text spells the digits with the point after
      position n, and denotes just that number. */
  method LayOut(digits: Text, n: int) returns (s: Text)
    requires 0 < |digits| && AllDigits(digits) && digits[0] != ZERO_CHAR
    ensures Denotes(s, false, Dec(Number(digits), n - |digits|))
    ensures s == Spell(EsNumeral(false, digits, n))
  {
    hide Digits, Denotes, Number, Dec, EsNumeral, Spell;
    EsLayoutSpells(false, digits, n);
    EsLayoutDenotes(false, digits, n);
    assert Sign(false) + EsLayout(digits, n) == EsLayout(digits, n);
    LayoutAssociates(digits, n);
    var k := |digits|;
    if k <= n <= 21 {
      s := digits + Zeros(n - k);
    } else if 0 < n <= 21 {
      s := digits[..n] + [DOT] + digits[n..];
    } else if -6 < n <= 0 {
      s := [ZERO_CHAR, DOT] + Zeros(-n) + digits;
    } else if k == 1 {
      s := digits + [LOWER_E] + [if n - 1 >= 0 then PLUS else MINUS] + Digits(AbsInt(n - 1));
    } else {
      s := [digits[0]] + [DOT] + digits[1..] + [LOWER_E] + [if n - 1 >= 0 then PLUS else MINUS] + Digits(AbsInt(n - 1));
    }
  }

  /** The specification of the re-layout, in terms of the stripped digit string. */
  lemma RelaidStripped(text: Text)
    requires InGrammar(text) && 0 < Read(text).Coefficient()
    ensures var num := Read(text); var l := StripLeft(num.whole + num.frac); var r := StripRight(l);
      && l != [] && r != [] && AllDigits(r) && r[0] != ZERO_CHAR
      && Relaid(text) == Sign(num.neg) + EsLayout(r, |l| + num.Scale())
  {
    hide Trim, EsLayout, ScanNumber, StripLeft, StripRight, Number, Dec, Digits, Spell;
    var num := Read(text);
    StripIsTrim(num.whole + num.frac, num.Scale());
    NumberOfDigits(Trim(Number(num.whole + num.frac), num.Scale()).0);
  }

  /** The re-layout denotes the same number as the repr text. */
  lemma RelaidDenotes(text: Text)
    requires InGrammar(text) && 0 < Read(text).Coefficient()
    ensures Denotes(Relaid(text), Read(text).neg, Read(text).Magnitude())
  {
    hide Trim, ScanNumber, Denotes, EsText, Dec, Number;
    var num := Read(text);
    var (d, q) := Trim(num.Coefficient(), num.Scale());
    EsTextDenotes(num.neg, d, q);
  }

  /** The same number at a smaller exponent ends in a zero. */
  lemma PaddedEndsInZero(d: nat, q: int, e: nat, t: int)
    requires q < t && Dec(d, q) == Dec(e, t)
    ensures d % 10 == 0
  {
    hide Dec, Pow;
    DecPad(e, q, t - q);
    DecOrder(d, e * Pow(10, t - q), q);
    TenDivides(e, t - q);
    MultipleOfTen(d, e * Pow(10, t - q - 1));
  }

  /** Digits that end in no zero are determined by the number they denote. */
  lemma TrimmedUnique(d: nat, q: int, e: nat, t: int)
    requires d % 10 != 0 && e % 10 != 0 && Dec(d, q) == Dec(e, t)
    ensures d == e && q == t
  {
    hide Dec;
    if q < t {
      PaddedEndsInZero(d, q, e, t);
    } else if t < q {
      PaddedEndsInZero(e, t, d, q);
    } else {
      DecOrder(d, e, q);
    }
  }

  /** Two repr texts of nonzero numbers are re-laid alike exactly when they denote the same number. */
  lemma RelaidUnique(r: Text, t: Text)
    requires InGrammar(r) && 0 < Read(r).Coefficient() && InGrammar(t) && 0 < Read(t).Coefficient()
    ensures Relaid(r) == Relaid(t) <==> Read(r).neg == Read(t).neg && Read(r).Magnitude() == Read(t).Magnitude()
  {
    hide Trim, ScanNumber, EsText, Dec, Number;
    RelaidDenotes(r);
    RelaidDenotes(t);
    var a, b := Read(r), Read(t);
    if a.neg == b.neg && a.Magnitude() == b.Magnitude() {
      var (d, q) := Trim(a.Coefficient(), a.Scale());
      var (e, p) := Trim(b.Coefficient(), b.Scale());
      TrimmedUnique(d, q, e, p);
    }
  }

  /** The re-layout of a repr text, step by step: the text of the specification, which denotes the
      number the repr text denotes. */
  method Relay(text: Text) returns (s: Text)
    requires InGrammar(text) && 0 < Read(text).Coefficient()
    ensures s == Relaid(text)
    ensures Denotes(s, Read(text).neg, Read(text).Magnitude())
  {
    hide Trim, EsLayout, Digits, SpellFrac, SpellExp, ScanNumber, Relaid, Number, StripLeft, StripRight;
    hide Denotes, Spell, EsNumeral;
    RelaidDenotes(text);
    ghost var num := Read(text);
    SpellGroups(num);
    var r := text;
    var neg := r[0] == MINUS;
    if neg {
      r := r[1..];
    }
    assert neg == num.neg && r == (num.whole + SpellFrac(num.frac)) + SpellExp(num.exp) by {
      SignFirst(num.neg, (num.whole + SpellFrac(num.frac)) + SpellExp(num.exp));
      assert num.whole[0] == ((num.whole + SpellFrac(num.frac)) + SpellExp(num.exp))[0];
    }
    var digits, n := SplitDigits(r, num);
    RelaidStripped(text);
    var lead := |digits| - |StripLeft(digits)|;
    digits := StripLeft(digits);
    if digits == [] { digits := ZERO_TEXT; }
    n := n - lead;
    digits := StripRight(digits);
    if digits == [] { digits := ZERO_TEXT; }
    EsLayoutSpells(false, digits, n);
    s := LayOut(digits, n);
    assert Sign(false) + s == s;
    s := (if neg then [MINUS] else []) + s;
  }

  lemma SignFirst(neg: bool, t: Text)
    requires t != [] && t[0] != MINUS
    ensures var s := Sign(neg) + t; (s[0] == MINUS <==> neg) && t == (if neg then s[1..] else s)
  {}

  function AbsInt(n: int): nat { if n < 0 then -n else n }

  lemma SpellGroups(n: Numeral)
    ensures Spell(n) == Sign(n.neg) + ((n.whole + SpellFrac(n.frac)) + SpellExp(n.exp))
  {
    assert n.whole + (SpellFrac(n.frac) + SpellExp(n.exp)) == (n.whole + SpellFrac(n.frac)) + SpellExp(n.exp);
  }

  lemma LayoutAssociates(s: Text, n: int)
    requires 0 < |s|
    ensures s + [LOWER_E] + [if n - 1 >= 0 then PLUS else MINUS] + Digits(AbsInt(n - 1)) == s + ExponentPart(n)
    ensures [s[0]] + [DOT] + s[1..] + [LOWER_E] + [if n - 1 >= 0 then PLUS else MINUS] + Digits(AbsInt(n - 1))
         == [s[0], DOT] + s[1..] + ExponentPart(n)
  {}

  method JcsDouble(repr: Repr, x: Double) returns (s: Option<Text>)
    requires ReprLaw(repr)
    ensures s == FloatText(repr, x)
  {
    if x.NaN? || x.Infinite? {
      return None;
    }
    if x.mag.mant == 0 {
      return Some(ZERO_TEXT);
    }
    ReprNonzero(x, repr(x));
    var t := Relay(repr(x));
    return Some(t);
  }

  lemma ReprNonzero(x: Double, r: Text)
    requires x.Finite? && x.mag.mant != 0 && ReprOk(x, r)
    ensures 0 < Read(r).Coefficient()
  {
    hide Trim;
    var n := Read(r);
    var (d, q) := Trim(n.Coefficient(), n.Scale());
    assert RoundTrips(x.mag, d, q) && 0.0 < Dec(d, q);
  }

  method JcsInteger(repr: Repr, n: int) returns (s: Option<Text>)
    requires ReprLaw(repr)
    ensures s == NumberText(repr, IntNum(n))
  {
    var asDouble := IntToDouble(n);
    if asDouble.None? {
      return None;
    }
    s := JcsDouble(repr, asDouble.value);
  }

  method JcsNumber(repr: Repr, v: Num) returns (s: Option<Text>)
    requires ReprLaw(repr)
    ensures s == NumberText(repr, v)
  {
    match v
    case IntNum(n) => s := JcsInteger(repr, n);
    case FloatNum(x) => s := JcsDouble(repr, x);
  }
}
