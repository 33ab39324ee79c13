/** The order of object keys: bytes of the UTF-16BE encoding, as section 3.2.3 of RFC 8785
    prescribes code units, and how it differs from code point order. */
module KeyOrder {
  import opened Text

  /** Lexicographic order, the order of Python's bytes and of its strings. */
  predicate Lex(a: seq<int>, b: seq<int>) {
    if a == [] || b == [] then a == [] && b != []
    else if a[0] != b[0] then a[0] < b[0]
    else Lex(a[1..], b[1..])
  }

  /** UTF-16 code units; lone surrogates pass through. */
  function Units(c: CodePoint): (u: seq<int>)
    ensures 0 < |u| <= 2 && forall i | 0 <= i < |u| :: 0 <= u[i] < 0x1_0000
  {
    if c < 0x1_0000 then [c]
    else [0xD800 + (c - 0x1_0000) / 0x400, 0xDC00 + (c - 0x1_0000) % 0x400]
  }

  function AllUnits(s: Text): (u: seq<int>)
    ensures forall i | 0 <= i < |u| :: 0 <= u[i] < 0x1_0000
  {
    if s == [] then [] else Units(s[0]) + AllUnits(s[1..])
  }

  /** Big-endian bytes of code units. */
  function BigEndian(u: seq<int>): Bytes
    requires forall i | 0 <= i < |u| :: 0 <= u[i] < 0x1_0000
  {
    if u == [] then [] else [u[0] / 0x100, u[0] % 0x100] + BigEndian(u[1..])
  }

  /** key.encode("utf-16-be", "surrogatepass"). */
  function SortKey(s: Text): Bytes { BigEndian(AllUnits(s)) }

  predicate KeyLess(a: Text, b: Text) { Lex(SortKey(a), SortKey(b)) }

  // ---------- lexicographic order is a strict total order ----------

  lemma {:induction false} LexTotal(a: seq<int>, b: seq<int>)
    ensures Lex(a, b) || Lex(b, a) || a == b
    ensures !(Lex(a, b) && Lex(b, a)) && !Lex(a, a)
  {
    if a != [] {
      LexTotal(a[1..], a[1..]);
    }
    if a != [] && b != [] && a[0] == b[0] {
      LexTotal(a[1..], b[1..]);
      assert a == [a[0]] + a[1..] && b == [b[0]] + b[1..];
    }
  }

  lemma {:induction false} LexTransitive(a: seq<int>, b: seq<int>, c: seq<int>)
    requires Lex(a, b) && Lex(b, c)
    ensures Lex(a, c)
  {
    if a != [] && a[0] == b[0] == c[0] {
      LexTransitive(a[1..], b[1..], c[1..]);
    }
  }

  lemma {:induction false} LexPrefix(p: seq<int>, a: seq<int>, b: seq<int>)
    ensures Lex(p + a, p + b) <==> Lex(a, b)
  {
    if p == [] {
      assert p + a == a && p + b == b;
    } else {
      assert (p + a)[1..] == p[1..] + a && (p + b)[1..] == p[1..] + b;
      LexPrefix(p[1..], a, b);
    }
  }

  // ---------- byte order is code unit order ----------

  lemma {:induction false} BytesAreUnits(u: seq<int>, v: seq<int>)
    requires forall i | 0 <= i < |u| :: 0 <= u[i] < 0x1_0000
    requires forall i | 0 <= i < |v| :: 0 <= v[i] < 0x1_0000
    ensures Lex(BigEndian(u), BigEndian(v)) <==> Lex(u, v)
    ensures BigEndian(u) == BigEndian(v) ==> u == v
  {
    if u != [] && v != [] {
      var a: seq<int>, b: seq<int> := BigEndian(u), BigEndian(v);
      BytesAreUnits(u[1..], v[1..]);
      assert a[1..][1..] == BigEndian(u[1..]) && b[1..][1..] == BigEndian(v[1..]);
      assert u[0] == 0x100 * a[0] + a[1] && v[0] == 0x100 * b[0] + b[1];
      assert u == [u[0]] + u[1..] && v == [v[0]] + v[1..];
    }
  }

  /** The sort key compares as the sequence of code units. */
  lemma KeyOrderIsUnitOrder(a: Text, b: Text)
    ensures KeyLess(a, b) <==> Lex(AllUnits(a), AllUnits(b))
  {
    BytesAreUnits(AllUnits(a), AllUnits(b));
  }

  // ---------- against code point order ----------

  predicate Astral(c: CodePoint) { 0x1_0000 <= c }
  predicate Upper(c: CodePoint) { 0xE000 <= c < 0x1_0000 }

  /** The one disagreement between the two orders on characters. */
  predicate Swapped(x: CodePoint, y: CodePoint) {
    (Astral(x) && Upper(y)) || (Upper(x) && Astral(y))
  }

  lemma UnitsOfCharacters(x: CodePoint, y: CodePoint, a: seq<int>, b: seq<int>)
    requires !IsSurrogate(x) && !IsSurrogate(y) && x != y
    ensures Lex(Units(x) + a, Units(y) + b) <==> ((x < y) != Swapped(x, y))
    ensures Units(x) + a != Units(y) + b
  {
    var u, v := Units(x) + a, Units(y) + b;
    assert Astral(x) ==> x - 0x1_0000 == 0x400 * (u[0] - 0xD800) + (u[1] - 0xDC00);
    assert Astral(y) ==> y - 0x1_0000 == 0x400 * (v[0] - 0xD800) + (v[1] - 0xDC00);
    if u[0] == v[0] {
      assert u[1..][0] == u[1] && v[1..][0] == v[1];
    }
  }

  /** Where two texts first differ. */
  function Differ(a: Text, b: Text): (i: nat)
    ensures i <= |a| && i <= |b| && a[..i] == b[..i]
    ensures i < |a| && i < |b| ==> a[i] != b[i]
  {
    if a == [] || b == [] || a[0] != b[0] then 0
    else
      var i := Differ(a[1..], b[1..]);
      assert a[..i + 1] == [a[0]] + a[1..][..i] && b[..i + 1] == [b[0]] + b[1..][..i];
      1 + i
  }

  /** On surrogate-free keys the sort order agrees with code point order, except when the first
      difference pits an astral character against one in U+E000 to U+FFFF; there it is reversed. */
  lemma {:induction false} KeyOrderVersusCodePoints(a: Text, b: Text)
    requires SurrogateFree(a) && SurrogateFree(b)
    ensures var i := Differ(a, b);
      (KeyLess(a, b) == Lex(a, b)) <==> !(i < |a| && i < |b| && Swapped(a[i], b[i]))
    ensures SortKey(a) == SortKey(b) ==> a == b
    decreases |a|
  {
    hide Units, Swapped, BigEndian;
    KeyOrderIsUnitOrder(a, b);
    BytesAreUnits(AllUnits(a), AllUnits(b));
    if a != [] && b != [] {
      if a[0] == b[0] {
        KeyOrderVersusCodePoints(a[1..], b[1..]);
        KeyOrderIsUnitOrder(a[1..], b[1..]);
        LexPrefix(Units(a[0]), AllUnits(a[1..]), AllUnits(b[1..]));
        SameFirst(a, b);
      } else {
        UnitsOfCharacters(a[0], b[0], AllUnits(a[1..]), AllUnits(b[1..]));
      }
    }
  }

  lemma SameFirst(a: Text, b: Text)
    requires a != [] && b != [] && a[0] == b[0]
    ensures AllUnits(a) == AllUnits(b) ==> AllUnits(a[1..]) == AllUnits(b[1..])
    ensures a[1..] == b[1..] ==> a == b
  {
    hide Units;
    var n := |Units(a[0])|;
    assert AllUnits(a)[n..] == AllUnits(a[1..]) && AllUnits(b)[n..] == AllUnits(b[1..]);
    assert a == [a[0]] + a[1..] && b == [b[0]] + b[1..];
  }

  /** The sort order is a strict total order on surrogate-free keys. */
  lemma KeyOrderTotal(a: Text, b: Text)
    requires SurrogateFree(a) && SurrogateFree(b)
    ensures KeyLess(a, b) || KeyLess(b, a) || a == b
    ensures !(KeyLess(a, b) && KeyLess(b, a)) && !KeyLess(a, a)
  {
    LexTotal(SortKey(a), SortKey(b));
    KeyOrderVersusCodePoints(a, b);
  }

  lemma KeyOrderTransitive(a: Text, b: Text, c: Text)
    requires KeyLess(a, b) && KeyLess(b, c)
    ensures KeyLess(a, c)
  {
    LexTransitive(SortKey(a), SortKey(b), SortKey(c));
  }

  /** Code units cannot tell a pair of lone surrogates from the astral character they pair to:
      the total order needs surrogate-free keys. */
  lemma SurrogatesCollide()
    ensures SortKey([0xD800, 0xDC00]) == SortKey([0x1_0000])
  {
    assert [0xD800, 0xDC00][1..] == [0xDC00];
    assert AllUnits([0xDC00]) == [0xDC00];
    assert AllUnits([0xD800, 0xDC00]) == [0xD800, 0xDC00];
    assert AllUnits([0x1_0000]) == [0xD800, 0xDC00];
  }
}
