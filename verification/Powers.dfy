/** Integer and real powers: the scale factors of binary64 values and of decimal texts. */
module Powers {

  function Pow(b: nat, n: nat): (r: nat)
    requires b > 0
    ensures r > 0
  {
    if n == 0 then 1 else assert b * Pow(b, n - 1) >= Pow(b, n - 1); b * Pow(b, n - 1)
  }

  /** b to an exponent of either sign. */
  function Exp(b: nat, e: int): (r: real)
    requires b > 0
    ensures r > 0.0
  {
    if e >= 0 then Pow(b, e) as real else 1.0 / (Pow(b, -e) as real)
  }

  lemma {:induction false} PowAdd(b: nat, i: nat, j: nat)
    requires b > 0
    ensures Pow(b, i + j) == Pow(b, i) * Pow(b, j)
  {
    if i > 0 {
      PowAdd(b, i - 1, j);
      assert b * (Pow(b, i - 1) * Pow(b, j)) == (b * Pow(b, i - 1)) * Pow(b, j);
    }
  }

  lemma {:induction false} PowMono(b: nat, i: nat, j: nat)
    requires b > 1 && i < j
    ensures b * Pow(b, i) <= Pow(b, j)
  {
    if i + 1 < j {
      PowMono(b, i, j - 1);
      assert Pow(b, j - 1) <= b * Pow(b, j - 1);
    }
  }

  lemma ExpStep(b: nat, e: int)
    requires b > 0
    ensures Exp(b, e + 1) == b as real * Exp(b, e)
  {
    if e < 0 {
      var p := Pow(b, -e - 1) as real;
      assert Pow(b, -e) as real == b as real * p;
      assert b as real * (1.0 / (b as real * p)) == 1.0 / p;
      if e == -1 { assert p == 1.0; }
    }
  }

  lemma ExpZero(b: nat)
    requires b > 0
    ensures Exp(b, 0) == 1.0
  {}

  lemma {:induction false} ExpAdd(b: nat, i: int, j: int)
    requires b > 0
    ensures Exp(b, i + j) == Exp(b, i) * Exp(b, j)
    decreases if j < 0 then -j else j
  {
    hide Exp, Pow;
    ExpZero(b);
    if j > 0 {
      ExpAdd(b, i, j - 1);
      ExpStep(b, i + j - 1);
      ExpStep(b, j - 1);
      ScaleProduct(b as real, Exp(b, i + j - 1), Exp(b, i), Exp(b, j - 1));
    } else if j < 0 {
      ExpAdd(b, i, j + 1);
      ExpStep(b, i + j);
      ExpStep(b, j);
      ScaleProduct(b as real, Exp(b, i + j), Exp(b, i), Exp(b, j));
    }
  }

  /** Both sides of z == x * y may be scaled by the same positive factor. */
  lemma ScaleProduct(a: real, z: real, x: real, y: real)
    requires a > 0.0
    ensures z == x * y <==> a * z == x * (a * y)
  {
    assert x * (a * y) == a * (x * y);
    if a * z == a * (x * y) { MulCancel(a, z, x * y); }
  }

  lemma MulCancel(a: real, x: real, y: real)
    requires a > 0.0 && a * x == a * y
    ensures x == y
  {}

  lemma MulLess(a: real, x: real, y: real)
    requires a > 0.0
    ensures x < y <==> x * a < y * a
    ensures x <= y <==> x * a <= y * a
    ensures x == y <==> x * a == y * a
  {}

  lemma {:induction false} ExpMono(b: nat, i: int, j: int)
    requires b > 1 && i < j
    ensures b as real * Exp(b, i) <= Exp(b, j)
    decreases j - i
  {
    hide Exp, Pow;
    ExpStep(b, i);
    if i + 1 < j {
      ExpMono(b, i + 1, j);
      MulLess(Exp(b, i + 1), 1.0, b as real);
    }
  }

  // ---------- y * b^e as one operation, so that later proofs stay linear ----------

  /** y moved e places to the left in base b. */
  function Shift(y: real, b: nat, e: int): real
    requires b > 0
    decreases if e < 0 then -e else e
  {
    if e == 0 then y
    else if e > 0 then Shift(b as real * y, b, e - 1)
    else Shift(y / b as real, b, e + 1)
  }

  lemma ShiftUnfolds(y: real, b: nat, e: int)
    requires b > 0 && e > 0
    ensures Shift(y, b, e) == Shift(b as real * y, b, e - 1)
  {}

  /** Shifting is multiplying by a power. */
  lemma {:induction false} ShiftIsProduct(y: real, b: nat, e: int)
    requires b > 0
    ensures Shift(y, b, e) == y * Exp(b, e)
    decreases if e < 0 then -e else e
  {
    hide Exp;
    if e == 0 {
      ExpZero(b);
      assert y * 1.0 == y;
    } else if e > 0 {
      ShiftIsProduct(b as real * y, b, e - 1);
      ExpStep(b, e - 1);
      assert Exp(b, e) == b as real * Exp(b, e - 1);
      Reassociate(y, b as real, Exp(b, e - 1));
      ShiftUnfolds(y, b, e);
    } else {
      ShiftIsProduct(y / b as real, b, e + 1);
      ExpStep(b, e);
      Cancel(y, b as real, Exp(b, e));
    }
  }

  lemma Cancel(y: real, b: real, p: real)
    requires b > 0.0
    ensures y / b * (b * p) == y * p
  {
    var z := y / b;
    assert z * b == y;
    Reassociate(z, b, p);
  }

  lemma Reassociate(a: real, b: real, c: real)
    ensures a * b * c == a * (b * c) && b * a * c == a * (b * c)
  {}

  lemma ShiftOrder(y: real, z: real, b: nat, e: int)
    requires b > 0
    ensures y < z <==> Shift(y, b, e) < Shift(z, b, e)
    ensures y == z <==> Shift(y, b, e) == Shift(z, b, e)
    ensures 0.0 <= y <==> 0.0 <= Shift(y, b, e)
    ensures y == 0.0 <==> Shift(y, b, e) == 0.0
  {
    hide Exp, Shift;
    ShiftIsProduct(y, b, e);
    ShiftIsProduct(z, b, e);
    MulLess(Exp(b, e), y, z);
    MulLess(Exp(b, e), 0.0, y);
  }

  lemma ShiftZero(y: real, b: nat)
    requires b > 0
    ensures Shift(y, b, 0) == y
  {}

  lemma ShiftStep(y: real, b: nat, e: int)
    requires b > 0
    ensures Shift(y, b, e + 1) == Shift(b as real * y, b, e)
  {
    hide Exp, Shift;
    ShiftIsProduct(y, b, e + 1);
    ShiftIsProduct(b as real * y, b, e);
    ExpStep(b, e);
    Reassociate(y, b as real, Exp(b, e));
  }

  lemma ShiftAdd(y: real, b: nat, i: int, j: int)
    requires b > 0
    ensures Shift(Shift(y, b, i), b, j) == Shift(y, b, i + j)
  {
    hide Exp, Shift;
    ShiftIsProduct(y, b, i);
    ShiftIsProduct(Shift(y, b, i), b, j);
    ShiftIsProduct(y, b, i + j);
    ExpAdd(b, i, j);
    Reassociate(y, Exp(b, i), Exp(b, j));
  }

  lemma ShiftPow(n: nat, b: nat, j: nat)
    requires b > 0
    ensures Shift(n as real, b, j) == (n * Pow(b, j)) as real
  {
    ShiftIsProduct(n as real, b, j);
  }

  lemma ShiftMinus(y: real, z: real, b: nat, e: int)
    requires b > 0
    ensures Shift(y, b, e) - Shift(z, b, e) == Shift(y - z, b, e)
    ensures Shift(-y, b, e) == -Shift(y, b, e)
  {
    hide Exp, Shift;
    ShiftIsProduct(y, b, e);
    ShiftIsProduct(z, b, e);
    ShiftIsProduct(y - z, b, e);
    ShiftIsProduct(-y, b, e);
    assert (y - z) * Exp(b, e) == y * Exp(b, e) - z * Exp(b, e);
  }

  /** Shifting commutes with multiplying. */
  lemma ShiftTimes(k: real, y: real, b: nat, e: int)
    requires b > 0
    ensures Shift(k * y, b, e) == k * Shift(y, b, e)
  {
    hide Exp, Shift;
    ShiftIsProduct(k * y, b, e);
    ShiftIsProduct(y, b, e);
    Reassociate(k, y, Exp(b, e));
  }

  lemma ShiftUp(y: real, b: nat, i: int, j: int)
    requires b > 1 && i < j && y >= 0.0
    ensures Shift(b as real * y, b, i) <= Shift(y, b, j)
  {
    hide Exp, Shift;
    ShiftIsProduct(b as real * y, b, i);
    ShiftIsProduct(y, b, j);
    ExpMono(b, i, j);
    assert b as real * y * Exp(b, i) == (b as real * Exp(b, i)) * y;
    if y > 0.0 { MulLess(y, b as real * Exp(b, i), Exp(b, j)); }
  }
}
