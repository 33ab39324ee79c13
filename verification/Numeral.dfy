/** JSON number texts: their grammar (RFC 8259 section 6), what they denote, how Python's json
    scans them, and the ECMA-262 section 7.1.12.1 layout of a decimal. */
module Numeral {
  import opened Powers
  import opened Wrappers
  import opened Text
  import opened Decimal
  import opened Binary64

  const MINUS: CodePoint := 0x2D
  const PLUS: CodePoint := 0x2B
  const DOT: CodePoint := 0x2E
  const LOWER_E: CodePoint := 0x65
  const UPPER_E: CodePoint := 0x45

  datatype Exponent = NoExp | ExpPart(neg: bool, digits: Text) {
    predicate WellFormed() { ExpPart? ==> 0 < |digits| && AllDigits(digits) }

    function Value(): int
      requires WellFormed()
    {
      if NoExp? then 0 else if neg then 0 - Number(digits) else Number(digits)
    }
  }

  /** The parts of a number text; an absent fraction is the empty one. */
  datatype Numeral = Numeral(neg: bool, whole: Text, frac: Text, exp: Exponent) {
    predicate WellFormed() {
      && 0 < |whole| && AllDigits(whole) && (whole[0] != ZERO_CHAR || |whole| == 1)
      && AllDigits(frac)
      && exp.WellFormed()
    }

    predicate IsInteger() { frac == [] && exp.NoExp? }

    /** The number denoted is (-1)^neg * Coefficient * 10^Scale. */
    function Coefficient(): nat
      requires WellFormed()
    {
      NumberConcat(whole, frac);
      Number(whole + frac)
    }

    function Scale(): int
      requires WellFormed()
    {
      exp.Value() - |frac|
    }

    function Magnitude(): (r: real)
      requires WellFormed()
      ensures r >= 0.0
    {
      Dec(Coefficient(), Scale())
    }
  }

  // ---------- spelling ----------

  function Sign(neg: bool): Text { if neg then [MINUS] else [] }

  function SpellFrac(frac: Text): Text { if frac == [] then [] else [DOT] + frac }

  function SpellExp(exp: Exponent): Text {
    match exp
    case NoExp => []
    case ExpPart(neg, ds) => [LOWER_E, if neg then MINUS else PLUS] + ds
  }

  function Spell(n: Numeral): Text {
    Sign(n.neg) + (n.whole + (SpellFrac(n.frac) + SpellExp(n.exp)))
  }

  // ---------- scanning: (-?(?:0|[1-9]\d*))(\.\d+)?([eE][-+]?\d+)? ----------

  /** How many digits t starts with. */
  function DigitRun(t: Text): (n: nat)
    ensures n <= |t| && AllDigits(t[..n])
    ensures n < |t| ==> !IsDigit(t[n])
  {
    if t != [] && IsDigit(t[0]) then 1 + DigitRun(t[1..]) else 0
  }

  function ScanWhole(t: Text): (r: Option<(Text, Text)>)
    ensures r.Some? ==> |r.value.1| < |t|
  {
    if t == [] || !IsDigit(t[0]) then None
    else if t[0] == ZERO_CHAR then Some(([ZERO_CHAR], t[1..]))
    else var n := DigitRun(t); Some((t[..n], t[n..]))
  }

  function ScanFrac(t: Text): (r: (Text, Text))
    ensures |r.1| <= |t|
  {
    if |t| >= 2 && t[0] == DOT && IsDigit(t[1]) then
      var n := DigitRun(t[1..]);
      (t[1..][..n], t[1..][n..])
    else ([], t)
  }

  function ScanExp(t: Text): (r: (Exponent, Text))
    ensures |r.1| <= |t|
  {
    if t == [] || (t[0] != LOWER_E && t[0] != UPPER_E) then (NoExp, t)
    else
      var signed := |t| >= 2 && (t[1] == PLUS || t[1] == MINUS);
      var ds := if signed then t[2..] else t[1..];
      var n := DigitRun(ds);
      if n == 0 then (NoExp, t)
      else (ExpPart(signed && t[1] == MINUS, ds[..n]), ds[n..])
  }

  function ScanNumber(t: Text): (r: Option<(Numeral, Text)>)
    ensures r.Some? ==> r.value.0.WellFormed() && |r.value.1| < |t|
  {
    var neg := t != [] && t[0] == MINUS;
    var (whole, t1) :- ScanWhole(if neg then t[1..] else t);
    var (frac, t2) := ScanFrac(t1);
    var (exp, t3) := ScanExp(t2);
    Some((Numeral(neg, whole, frac, exp), t3))
  }

  /** Text that cannot be taken for the continuation of a number. */
  predicate EndsNumber(t: Text) {
    t == [] || (!IsDigit(t[0]) && t[0] != DOT && t[0] != LOWER_E && t[0] != UPPER_E)
  }

  lemma {:induction false} DigitRunOf(ds: Text, rest: Text)
    requires AllDigits(ds) && (rest == [] || !IsDigit(rest[0]))
    ensures DigitRun(ds + rest) == |ds|
    ensures (ds + rest)[..|ds|] == ds && (ds + rest)[|ds|..] == rest
  {
    if ds != [] {
      assert (ds + rest)[1..] == ds[1..] + rest;
      DigitRunOf(ds[1..], rest);
    }
  }

  lemma ScanSpelledExp(exp: Exponent, rest: Text)
    requires exp.WellFormed()
    requires EndsNumber(rest)
    ensures ScanExp(SpellExp(exp) + rest) == (exp, rest)
  {
    hide DigitRun;
    if exp.ExpPart? {
      var t := SpellExp(exp) + rest;
      assert t == [LOWER_E, if exp.neg then MINUS else PLUS] + (exp.digits + rest);
      assert t[2..] == exp.digits + rest;
      DigitRunOf(exp.digits, rest);
    } else {
      assert SpellExp(exp) + rest == rest;
    }
  }

  lemma ScanSpelledFrac(frac: Text, rest: Text)
    requires AllDigits(frac)
    requires rest == [] || (!IsDigit(rest[0]) && rest[0] != DOT)
    ensures ScanFrac(SpellFrac(frac) + rest) == (frac, rest)
  {
    if frac != [] {
      assert (SpellFrac(frac) + rest)[1..] == frac + rest;
      DigitRunOf(frac, rest);
    } else {
      assert SpellFrac(frac) + rest == rest;
    }
  }

  lemma ScanSpelledWhole(whole: Text, rest: Text)
    requires 0 < |whole| && AllDigits(whole) && (whole[0] != ZERO_CHAR || |whole| == 1)
    requires rest == [] || !IsDigit(rest[0])
    ensures ScanWhole(whole + rest) == Some((whole, rest))
  {
    if whole[0] == ZERO_CHAR {
      assert whole == [ZERO_CHAR];
      assert (whole + rest)[1..] == rest;
    } else {
      DigitRunOf(whole, rest);
    }
  }

  /** A spelled numeral is scanned back whole, whatever follows that ends a number. */
  lemma ScanSpelled(n: Numeral, rest: Text)
    requires n.WellFormed() && EndsNumber(rest)
    ensures ScanNumber(Spell(n) + rest) == Some((n, rest))
  {
    var t2 := SpellExp(n.exp) + rest;
    var t1 := SpellFrac(n.frac) + t2;
    var t0 := n.whole + t1;
    assert Spell(n) + rest == Sign(n.neg) + t0;
    ScanSpelledWhole(n.whole, t1);
    ScanSpelledFrac(n.frac, t2);
    ScanSpelledExp(n.exp, rest);
    ScanParts(n, t0, t1, t2, rest);
  }

  lemma ScanParts(n: Numeral, t0: Text, t1: Text, t2: Text, rest: Text)
    requires t0 != [] && IsDigit(t0[0]) && n.WellFormed()
    requires ScanWhole(t0) == Some((n.whole, t1)) && ScanFrac(t1) == (n.frac, t2)
    requires ScanExp(t2) == (n.exp, rest)
    ensures ScanNumber(Sign(n.neg) + t0) == Some((n, rest))
  {
    hide ScanWhole, ScanFrac, ScanExp;
    var t := Sign(n.neg) + t0;
    if n.neg { assert t[1..] == t0; } else { assert t == t0; }
  }

  // ---------- ECMA-262 section 7.1.12.1, steps 6 to 10 ----------

  function ExponentPart(n: int): Text {
    [LOWER_E, if n - 1 >= 0 then PLUS else MINUS] + Digits(if n - 1 >= 0 then n - 1 else 1 - n)
  }

  /** The layout of digits s whose decimal point stands after position n. */
  function EsLayout(s: Text, n: int): Text
    requires 0 < |s|
  {
    var k := |s|;
    if k <= n <= 21 then s + Zeros(n - k)
    else if 0 < n <= 21 then s[..n] + [DOT] + s[n..]
    else if -6 < n <= 0 then [ZERO_CHAR, DOT] + Zeros(-n) + s
    else if k == 1 then s + ExponentPart(n)
    else [s[0], DOT] + s[1..] + ExponentPart(n)
  }

  /** Number::toString of the nonzero value (-1)^neg * d * 10^q. */
  function EsText(neg: bool, d: nat, q: int): Text
    requires 0 < d
  {
    Sign(neg) + EsLayout(Digits(d), Size(d) + q)
  }

  function EsExponent(n: int): Exponent {
    ExpPart(n - 1 < 0, Digits(if n - 1 >= 0 then n - 1 else 1 - n))
  }

  /** The same text, as a numeral. */
  function EsNumeral(neg: bool, s: Text, n: int): Numeral
    requires 0 < |s|
  {
    var k := |s|;
    if k <= n <= 21 then Numeral(neg, s + Zeros(n - k), [], NoExp)
    else if 0 < n <= 21 then Numeral(neg, s[..n], s[n..], NoExp)
    else if -6 < n <= 0 then Numeral(neg, [ZERO_CHAR], Zeros(-n) + s, NoExp)
    else if k == 1 then Numeral(neg, s, [], EsExponent(n))
    else Numeral(neg, [s[0]], s[1..], EsExponent(n))
  }

  lemma EsTextSpells(neg: bool, d: nat, q: int)
    requires 0 < d
    ensures var num := EsNumeral(neg, Digits(d), Size(d) + q);
      EsText(neg, d, q) == Spell(num) && num.WellFormed()
  {
    hide Digits, EsLayout, EsNumeral, Spell;
    NumberOfDigits(d);
    EsLayoutSpells(neg, Digits(d), Size(d) + q);
  }

  lemma EsLayoutSpells(neg: bool, s: Text, n: int)
    requires 0 < |s| && AllDigits(s) && s[0] != ZERO_CHAR
    ensures var num := EsNumeral(neg, s, n);
      Sign(neg) + EsLayout(s, n) == Spell(num) && num.WellFormed()
  {
    hide Digits, EsLayout;
    EsTail(neg, s, n);
    EsExponentSpells(n);
  }

  lemma EsTail(neg: bool, s: Text, n: int)
    requires 0 < |s|
    ensures var num := EsNumeral(neg, s, n);
      EsLayout(s, n) == num.whole + (SpellFrac(num.frac) + SpellExp(num.exp))
  {
    if -6 < n <= 21 { EsTailFixed(neg, s, n); } else { EsTailExponent(neg, s, n); }
  }

  lemma EsTailFixed(neg: bool, s: Text, n: int)
    requires 0 < |s| && -6 < n <= 21
    ensures var num := EsNumeral(neg, s, n);
      EsLayout(s, n) == num.whole + (SpellFrac(num.frac) + SpellExp(num.exp))
  {
    hide Digits, ExponentPart, EsExponent;
    assert SpellExp(NoExp) == [];
    if |s| <= n {
    } else if 0 < n {
      assert s[..n] + [DOT] + s[n..] == s[..n] + ([DOT] + s[n..] + []);
    } else {
      assert [ZERO_CHAR, DOT] + Zeros(-n) + s == [ZERO_CHAR] + ([DOT] + (Zeros(-n) + s) + []);
    }
  }

  lemma EsTailExponent(neg: bool, s: Text, n: int)
    requires 0 < |s| && !(-6 < n <= 21)
    ensures var num := EsNumeral(neg, s, n);
      EsLayout(s, n) == num.whole + (SpellFrac(num.frac) + SpellExp(num.exp))
  {
    EsExponentSpells(n);
    hide Digits, ExponentPart, EsExponent;
    var e := ExponentPart(n);
    if |s| > 1 {
      assert [s[0], DOT] + s[1..] + e == [s[0]] + ([DOT] + s[1..] + e);
    } else {
      assert s + e == s + ([] + e);
    }
  }

  lemma EsExponentSpells(n: int)
    ensures SpellExp(EsExponent(n)) == ExponentPart(n) && EsExponent(n).WellFormed()
  {}

  /** t is a number of the grammar, nothing else, with this sign and this absolute value. */
  predicate Denotes(t: Text, neg: bool, r: real) {
    var s := ScanNumber(t);
    s.Some? && s.value.1 == [] && s.value.0.neg == neg && s.value.0.Magnitude() == r
  }

  lemma EsNumeralSign(neg: bool, s: Text, n: int)
    requires 0 < |s|
    ensures EsNumeral(neg, s, n).neg == neg
  {}

  lemma MagnitudeIs(num: Numeral)
    requires num.WellFormed()
    ensures num.Magnitude() == Dec(num.Coefficient(), num.Scale())
  {
    hide Dec, Numeral.Coefficient, Numeral.Scale, Numeral.WellFormed;
  }

  lemma EsNumeralDenotes(neg: bool, s: Text, n: int)
    requires 0 < |s| && AllDigits(s) && s[0] != ZERO_CHAR
    ensures var num := EsNumeral(neg, s, n);
      num.WellFormed() && num.neg == neg && num.Magnitude() == Dec(Number(s), n - |s|)
  {
    hide Digits, Number, Dec, EsNumeral, EsLayout, Spell, Pow, Numeral.Coefficient, Numeral.Scale, Numeral.Magnitude;
    hide Numeral.WellFormed, AllDigits;
    EsNumeralSign(neg, s, n);
    EsLayoutSpells(neg, s, n);
    EsNumeralParts(neg, s, n);
    MagnitudeIs(EsNumeral(neg, s, n));
    if |s| <= n <= 21 { DecPad(Number(s), 0, n - |s|); }
  }

  /** The layout of digits s with the point after position n denotes exactly that number, in every
      one of its five forms. */
  lemma EsLayoutDenotes(neg: bool, s: Text, n: int)
    requires 0 < |s| && AllDigits(s) && s[0] != ZERO_CHAR
    ensures Denotes(Sign(neg) + EsLayout(s, n), neg, Dec(Number(s), n - |s|))
  {
    hide EsLayout, EsNumeral, Spell, ScanNumber, Number, Dec, Numeral.Magnitude;
    var num := EsNumeral(neg, s, n);
    EsLayoutSpells(neg, s, n);
    EsNumeralDenotes(neg, s, n);
    ScanSpelled(num, []);
    assert Spell(num) + [] == Spell(num);
  }

  /** Number::toString of (-1)^neg * d * 10^q denotes that number. */
  lemma EsTextDenotes(neg: bool, d: nat, q: int)
    requires 0 < d
    ensures Denotes(EsText(neg, d, q), neg, Dec(d, q))
    ensures var num := EsNumeral(neg, Digits(d), Size(d) + q);
      num.WellFormed() && num.Magnitude() == Dec(d, q)
  {
    hide Digits, Number, Dec, EsLayout, EsNumeral, Denotes, Numeral.Magnitude;
    NumberOfDigits(d);
    EsLayoutDenotes(neg, Digits(d), Size(d) + q);
    EsNumeralDenotes(neg, Digits(d), Size(d) + q);
  }

  lemma EsNumeralParts(neg: bool, s: Text, n: int)
    requires 0 < |s| && AllDigits(s) && s[0] != ZERO_CHAR
    requires EsNumeral(neg, s, n).WellFormed()
    ensures var num := EsNumeral(neg, s, n);
      if |s| <= n <= 21 then num.Coefficient() == Number(s) * Pow(10, n - |s|) && num.Scale() == 0
      else num.Coefficient() == Number(s) && num.Scale() == n - |s|
  {
    hide Digits, Number;
    var k, num := |s|, EsNumeral(neg, s, n);
    if k <= n <= 21 {
      NumberConcat(s, Zeros(n - k));
      NumberOfZeros(n - k);
      assert num.whole + num.frac == num.whole;
    } else if 0 < n <= 21 {
      assert num.whole + num.frac == s;
    } else if -6 < n <= 0 {
      NumberOfZeros(1 - n);
      assert num.whole + num.frac == Zeros(1 - n) + s;
      NumberConcat(Zeros(1 - n), s);
    } else {
      NumberOfDigits(if n - 1 >= 0 then n - 1 else 1 - n);
      assert num.whole + num.frac == s;
    }
  }
}
