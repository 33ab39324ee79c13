/** Decimal digit strings and the numbers they spell. */
module Decimal {
  import opened Powers
  import opened Text

  const ZERO_CHAR: CodePoint := 0x30

  predicate IsDigit(c: CodePoint) { 0x30 <= c <= 0x39 }

  predicate AllDigits(t: Text) { forall i | 0 <= i < |t| :: IsDigit(t[i]) }

  /** Python's str(n), for n >= 0. */
  function Digits(n: nat): (t: Text)
    ensures 0 < |t| && AllDigits(t)
  {
    if n < 10 then [0x30 + n] else Digits(n / 10) + [0x30 + n % 10]
  }

  /** Python's int(t), for a string of ASCII digits. */
  function Number(t: Text): nat
    requires AllDigits(t)
  {
    if t == [] then 0 else 10 * Number(t[..|t| - 1]) + (t[|t| - 1] - 0x30)
  }

  /** How many digits n is written with. */
  function Size(n: nat): (k: nat)
    ensures 0 < k
  {
    |Digits(n)|
  }

  function Zeros(n: nat): (t: Text)
    ensures |t| == n && AllDigits(t)
  {
    seq(n, _ => ZERO_CHAR)
  }

  lemma {:induction false} NumberOfDigits(n: nat)
    ensures Number(Digits(n)) == n
    ensures 0 < n ==> Digits(n)[0] != ZERO_CHAR
  {
    if n < 10 {
      assert [0x30 + n][..0] == [];
    } else {
      NumberOfDigits(n / 10);
      assert Digits(n)[..|Digits(n)| - 1] == Digits(n / 10);
    }
  }

  /** A digit string without a superfluous leading zero is what its number is written as. */
  lemma {:induction false} DigitsOfNumber(t: Text)
    requires AllDigits(t) && 0 < |t| && (t[0] != ZERO_CHAR || |t| == 1)
    ensures Digits(Number(t)) == t
    ensures t[0] != ZERO_CHAR ==> 0 < Number(t)
  {
    var head := t[..|t| - 1];
    if head == [] {
      assert Number(head) == 0;
      assert t == [t[0]];
    } else {
      DigitsOfNumber(head);
      assert t == head + [t[|t| - 1]];
    }
  }

  lemma {:induction false} NumberConcat(a: Text, b: Text)
    requires AllDigits(a) && AllDigits(b)
    ensures AllDigits(a + b)
    ensures Number(a + b) == Number(a) * Pow(10, |b|) + Number(b)
  {
    if b == [] {
      assert a + b == a;
    } else {
      var c := b[..|b| - 1];
      NumberConcat(a, c);
      assert (a + b)[..|a + b| - 1] == a + c;
      assert Number(a) * Pow(10, |b|) == 10 * (Number(a) * Pow(10, |c|));
    }
  }

  lemma {:induction false} NumberOfZeros(n: nat)
    ensures Number(Zeros(n)) == 0
  {
    if n > 0 {
      assert Zeros(n)[..n - 1] == Zeros(n - 1);
      NumberOfZeros(n - 1);
    }
  }

  lemma {:induction false} SizeBounds(n: nat)
    ensures n < Pow(10, Size(n))
    ensures 0 < n ==> Pow(10, Size(n) - 1) <= n
  {
    if 10 <= n {
      SizeBounds(n / 10);
      assert Size(n) == Size(n / 10) + 1;
    }
  }

  lemma {:induction false} SizeMono(m: nat, n: nat)
    requires m <= n
    ensures Size(m) <= Size(n)
  {
    if 10 <= m {
      SizeMono(m / 10, n / 10);
    }
  }

  lemma {:induction false} SizeAtMost(n: nat, k: nat)
    requires 0 < k && n < Pow(10, k)
    ensures Size(n) <= k
  {
    if 10 <= n {
      assert Pow(10, k) == 10 * Pow(10, k - 1);
      SizeAtMost(n / 10, k - 1);
    }
  }

  // ---------- str.lstrip("0") and str.rstrip("0") ----------

  function StripLeft(t: Text): (r: Text)
    ensures |r| <= |t|
    ensures r != [] ==> r[0] != ZERO_CHAR
  {
    if t != [] && t[0] == ZERO_CHAR then StripLeft(t[1..]) else t
  }

  function StripRight(t: Text): (r: Text)
    ensures |r| <= |t|
    ensures r != [] ==> r[|r| - 1] != ZERO_CHAR
  {
    if t != [] && t[|t| - 1] == ZERO_CHAR then StripRight(t[..|t| - 1]) else t
  }

  lemma {:induction false} StripLeftZeros(t: Text)
    ensures t == Zeros(|t| - |StripLeft(t)|) + StripLeft(t)
  {
    if t != [] && t[0] == ZERO_CHAR {
      StripLeftZeros(t[1..]);
      var n := |t| - |StripLeft(t)|;
      assert t == [ZERO_CHAR] + t[1..];
      assert Zeros(n) == [ZERO_CHAR] + Zeros(n - 1);
    }
  }

  lemma {:induction false} StripRightZeros(t: Text)
    ensures t == StripRight(t) + Zeros(|t| - |StripRight(t)|)
  {
    if t != [] && t[|t| - 1] == ZERO_CHAR {
      StripRightZeros(t[..|t| - 1]);
      var n := |t| - |StripRight(t)|;
      assert t == t[..|t| - 1] + [ZERO_CHAR];
      assert Zeros(n) == Zeros(n - 1) + [ZERO_CHAR];
    }
  }

  // ---------- d * 10^q ----------

  /** The value of the decimal d * 10^q. */
  function Dec(d: nat, q: int): (r: real)
    ensures 0.0 <= r && (d == 0 <==> r == 0.0)
  {
    hide Shift;
    ShiftOrder(d as real, d as real, 10, q);
    Shift(d as real, 10, q)
  }

  lemma DecOrder(c: nat, d: nat, q: int)
    ensures c < d <==> Dec(c, q) < Dec(d, q)
    ensures c == d <==> Dec(c, q) == Dec(d, q)
  {
    hide Shift;
    ShiftOrder(c as real, d as real, 10, q);
  }

  /** Zeros appended to the digits are taken from the exponent. */
  lemma DecPad(d: nat, q: int, j: nat)
    ensures Dec(d * Pow(10, j), q) == Dec(d, q + j)
  {
    hide Shift;
    ShiftPow(d, 10, j);
    ShiftAdd(d as real, 10, j, q);
  }

  /** A decimal lies in the decade that its digit count and exponent say. */
  lemma DecDecade(d: nat, q: int)
    requires 0 < d
    ensures Dec(1, Size(d) + q - 1) <= Dec(d, q) < Dec(1, Size(d) + q)
  {
    SizeBounds(d);
    DecPad(1, q, Size(d) - 1);
    DecPad(1, q, Size(d));
    DecOrder(Pow(10, Size(d) - 1), d, q);
    DecOrder(d, Pow(10, Size(d)), q);
  }

  lemma DecadeOrder(i: int, j: int)
    requires i < j
    ensures 10.0 * Dec(1, i) <= Dec(1, j)
  {
    hide Shift;
    ShiftUp(1.0, 10, i, j);
    ShiftMinus(10.0, 0.0, 10, i);
    TenTimes(i);
  }

  lemma TenTimes(i: int)
    ensures Shift(10.0, 10, i) == 10.0 * Shift(1.0, 10, i)
  {
    hide Shift;
    ShiftTimes(10.0, 1.0, 10, i);
  }
}
