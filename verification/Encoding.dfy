/** UTF-8: the encoder as a prefix code on code points, and the strict decoder that inverts it. */
module Encoding {
  import opened Wrappers
  import opened Text

  function EncodeChar(c: CodePoint): (b: Bytes)
    ensures 0 < |b|
  {
    if c < 0x80 then [c]
    else if c < 0x800 then [0xC0 + c / 0x40, 0x80 + c % 0x40]
    else if c < 0x1_0000 then [0xE0 + c / 0x1000, 0x80 + c / 0x40 % 0x40, 0x80 + c % 0x40]
    else [0xF0 + c / 0x4_0000, 0x80 + c / 0x1000 % 0x40, 0x80 + c / 0x40 % 0x40, 0x80 + c % 0x40]
  }

  function Utf8(t: Text): Bytes {
    if t == [] then [] else EncodeChar(t[0]) + Utf8(t[1..])
  }

  /** The first byte tells how long the encoding of the first character is. */
  lemma FirstByte(c: CodePoint)
    ensures var b := EncodeChar(c);
      && (b[0] < 0x80 <==> |b| == 1) && (0xC0 <= b[0] < 0xE0 <==> |b| == 2)
      && (0xE0 <= b[0] < 0xF0 <==> |b| == 3) && (0xF0 <= b[0] <==> |b| == 4)
  {}

  lemma CharInjective(x: CodePoint, y: CodePoint)
    requires EncodeChar(x) == EncodeChar(y)
    ensures x == y
  {
    FirstByte(x);
    FirstByte(y);
    var b: seq<int> := EncodeChar(x);
    Digits64(x);
    Digits64(y);
  }

  lemma Digits64(c: CodePoint)
    ensures var b: seq<int> := EncodeChar(c);
      c == if |b| == 1 then b[0]
           else if |b| == 2 then 0x40 * (b[0] - 0xC0) + (b[1] - 0x80)
           else if |b| == 3 then 0x1000 * (b[0] - 0xE0) + 0x40 * (b[1] - 0x80) + (b[2] - 0x80)
           else 0x4_0000 * (b[0] - 0xF0) + 0x1000 * (b[1] - 0x80) + 0x40 * (b[2] - 0x80) + (b[3] - 0x80)
  {
    var d: int := c / 0x40;
    var e: int := c / 0x1000;
    assert c == 0x40 * d + c % 0x40;
    assert d == 0x40 * e + d % 0x40;
    assert e == 0x40 * (c / 0x4_0000) + e % 0x40;
  }

  lemma {:induction false} Utf8Injective(a: Text, b: Text)
    requires Utf8(a) == Utf8(b)
    ensures a == b
  {
    if a != [] && b != [] {
      hide EncodeChar;
      var s, t := Utf8(a[1..]), Utf8(b[1..]);
      var x, y := EncodeChar(a[0]), EncodeChar(b[0]);
      assert Utf8(a)[0] == x[0] && Utf8(b)[0] == y[0];
      FirstByte(a[0]);
      FirstByte(b[0]);
      assert x == Utf8(a)[..|x|] && y == Utf8(b)[..|y|];
      assert s == Utf8(a)[|x|..] && t == Utf8(b)[|y|..];
      CharInjective(a[0], b[0]);
      Utf8Injective(a[1..], b[1..]);
      assert a == [a[0]] + a[1..] && b == [b[0]] + b[1..];
    }
  }

  // ---------- the strict decoder ----------

  predicate Continues(b: Byte) { 0x80 <= b < 0xC0 }

  /** The character at the start of b and how many bytes it takes: no stray or missing continuation,
      no overlong form, no surrogate, nothing above U+10FFFF. */
  function DecodeChar(b: Bytes): (r: Option<(CodePoint, nat)>)
    requires b != []
    ensures r.Some? ==> 0 < r.value.1 <= |b|
  {
    var d: seq<int> := b;
    if b[0] < 0x80 then Some((b[0], 1))
    else if 0xC2 <= b[0] < 0xE0 && 2 <= |b| && Continues(b[1]) then
      Some((0x40 * (d[0] - 0xC0) + (d[1] - 0x80), 2))
    else if 0xE0 <= b[0] < 0xF0 && 3 <= |b| && Continues(b[1]) && Continues(b[2]) then
      var c: CodePoint := 0x1000 * (d[0] - 0xE0) + 0x40 * (d[1] - 0x80) + (d[2] - 0x80);
      if c < 0x800 || IsSurrogate(c) then None else Some((c, 3))
    else if 0xF0 <= b[0] < 0xF5 && 4 <= |b| && Continues(b[1]) && Continues(b[2]) && Continues(b[3]) then
      var c := 0x4_0000 * (d[0] - 0xF0) + 0x1000 * (d[1] - 0x80) + 0x40 * (d[2] - 0x80) + (d[3] - 0x80);
      if c < 0x1_0000 || 0x11_0000 <= c then None else Some((c, 4))
    else None
  }

  /** bytes.decode("utf-8"); None is UnicodeDecodeError. */
  function DecodeUtf8(b: Bytes): Option<Text> {
    if b == [] then Some([])
    else
      var (c, n) :- DecodeChar(b);
      var t :- DecodeUtf8(b[n..]);
      Some([c] + t)
  }

  /** Base-64 digits that add up to c are c's. */
  lemma Digits64Unique(c: CodePoint, x: int, y: int, z: int)
    requires 0 <= y < 0x40 && 0 <= z < 0x40 && c == 0x1000 * x + 0x40 * y + z
    ensures c / 0x1000 == x && c / 0x40 % 0x40 == y && c % 0x40 == z
  {
    assert c / 0x40 == 0x40 * x + y;
  }

  lemma TwoBytes(x: int, y: int)
    requires 2 <= x < 0x20 && 0 <= y < 0x40
    ensures EncodeChar(0x40 * x + y) == [0xC0 + x, 0x80 + y]
  {
    Digits64Unique(0x40 * x + y, 0, x, y);
  }

  lemma ThreeBytes(x: int, y: int, z: int)
    requires 0 <= x < 0x10 && 0 <= y < 0x40 && 0 <= z < 0x40 && 0x800 <= 0x1000 * x + 0x40 * y + z
    ensures EncodeChar(0x1000 * x + 0x40 * y + z) == [0xE0 + x, 0x80 + y, 0x80 + z]
  {
    Digits64Unique(0x1000 * x + 0x40 * y + z, x, y, z);
  }

  lemma FourBytes(w: int, x: int, y: int, z: int)
    requires 0 <= w < 5 && 0 <= x < 0x40 && 0 <= y < 0x40 && 0 <= z < 0x40
    requires 0x1_0000 <= 0x4_0000 * w + 0x1000 * x + 0x40 * y + z < 0x11_0000
    ensures EncodeChar(0x4_0000 * w + 0x1000 * x + 0x40 * y + z) == [0xF0 + w, 0x80 + x, 0x80 + y, 0x80 + z]
  {
    Digits64Unique(0x4_0000 * w + 0x1000 * x + 0x40 * y + z, 0x40 * w + x, y, z);
  }

  lemma DecodedChar(b: Bytes)
    requires b != [] && DecodeChar(b).Some?
    ensures var (c, n) := DecodeChar(b).value; !IsSurrogate(c) && EncodeChar(c) == b[..n]
  {
    var (c, n) := DecodeChar(b).value;
    var d: seq<int> := b;
    if n == 1 {
      AsciiChar(c);
    }
    hide EncodeChar;
    if n == 2 {
      TwoBytes(d[0] - 0xC0, d[1] - 0x80);
      assert b[..2] == [b[0], b[1]];
    } else if n == 3 {
      ThreeBytes(d[0] - 0xE0, d[1] - 0x80, d[2] - 0x80);
      assert b[..3] == [b[0], b[1], b[2]];
    } else if n == 4 {
      FourBytes(d[0] - 0xF0, d[1] - 0x80, d[2] - 0x80, d[3] - 0x80);
      assert b[..4] == [b[0], b[1], b[2], b[3]];
    }
  }

  lemma DecodeEncoded(c: CodePoint, rest: Bytes)
    requires !IsSurrogate(c)
    ensures DecodeChar(EncodeChar(c) + rest) == Some((c, |EncodeChar(c)|))
  {
    Digits64(c);
  }

  /** The decoder accepts exactly the encodings of surrogate-free texts, and inverts them. */
  lemma {:induction false} DecodeUtf8Iff(b: Bytes, t: Text)
    ensures DecodeUtf8(b) == Some(t) <==> SurrogateFree(t) && Utf8(t) == b
    decreases |b| + |t|
  {
    hide DecodeChar, EncodeChar;
    if b != [] && DecodeUtf8(b) == Some(t) {
      var (c, n) := DecodeChar(b).value;
      DecodedChar(b);
      assert t[0] == c && t[1..] == DecodeUtf8(b[n..]).value;
      DecodeUtf8Iff(b[n..], t[1..]);
      assert t == [c] + t[1..] && b == b[..n] + b[n..];
    }
    if t != [] && SurrogateFree(t) && Utf8(t) == b {
      var n := |EncodeChar(t[0])|;
      DecodeEncoded(t[0], Utf8(t[1..]));
      assert b[n..] == Utf8(t[1..]);
      DecodeUtf8Iff(b[n..], t[1..]);
      assert t == [t[0]] + t[1..];
    }
  }

  /** It raises exactly on bytes that encode no surrogate-free text. */
  lemma DecodeUtf8Refuses(b: Bytes)
    ensures DecodeUtf8(b).None? <==> !exists t: Text :: SurrogateFree(t) && Utf8(t) == b
  {
    if DecodeUtf8(b).Some? {
      DecodeUtf8Iff(b, DecodeUtf8(b).value);
    }
    forall t: Text | SurrogateFree(t) && Utf8(t) == b ensures DecodeUtf8(b).Some? {
      DecodeUtf8Iff(b, t);
    }
  }

  // ---------- ASCII ----------

  predicate IsAscii(t: Text) { forall i | 0 <= i < |t| :: t[i] < 0x80 }

  lemma {:induction false} Utf8Concat(a: Text, b: Text)
    ensures Utf8(a + b) == Utf8(a) + Utf8(b)
  {
    if a == [] {
      assert a + b == b;
    } else {
      assert (a + b)[1..] == a[1..] + b;
      Utf8Concat(a[1..], b);
    }
  }

  /** ASCII text is encoded byte for character. */
  lemma {:induction false} Utf8Ascii(t: Text)
    requires IsAscii(t)
    ensures |Utf8(t)| == |t| && forall i | 0 <= i < |t| :: Utf8(t)[i] == t[i]
  {
    if t != [] { Utf8Ascii(t[1..]); }
  }

  /** Only a character's own single byte is below 0x80. */
  lemma LastByte(c: CodePoint)
    ensures var e := EncodeChar(c); e[|e| - 1] < 0x80 ==> c < 0x80 && e == [c]
  {}

  lemma {:induction false} AsciiPeels(b: Bytes, a: Text, u: Text)
    requires IsAscii(a) && SurrogateFree(u) && Utf8(u) == b + Utf8(a)
    ensures |a| <= |u| && SurrogateFree(u[..|u| - |a|]) && Utf8(u[..|u| - |a|]) == b && u[|u| - |a|..] == a
    decreases |a|
  {
    hide Utf8, SurrogateFree;
    if a == [] {
      Utf8Ascii(a);
      assert u[..|u|] == u && b + Utf8(a) == b;
    } else {
      var n := |a| - 1;
      LastPeels(b, a, u);
      PlainPrefix(u, |u| - 1);
      AsciiPeels(b, a[..n], u[..|u| - 1]);
      assert u[..|u| - 1][..|u| - 1 - n] == u[..|u| - |a|];
      assert u[|u| - |a|..] == u[..|u| - 1][|u| - |a|..] + [u[|u| - 1]];
    }
  }

  lemma PlainPrefix(u: Text, n: nat)
    requires SurrogateFree(u) && n <= |u|
    ensures SurrogateFree(u[..n])
  {}

  /** The last ASCII byte is the last character. */
  lemma LastPeels(b: Bytes, a: Text, u: Text)
    requires IsAscii(a) && a != [] && Utf8(u) == b + Utf8(a)
    ensures u != [] && u[|u| - 1] == a[|a| - 1] && Utf8(u[..|u| - 1]) == b + Utf8(a[..|a| - 1])
  {
    hide Utf8, EncodeChar;
    var init, x := a[..|a| - 1], a[|a| - 1];
    SnocBytes(a);
    AsciiChar(x);
    hide IsAscii;
    NoBytes(u);
    SnocBytes(u);
    LastByte(u[|u| - 1]);
    PeelOne(Utf8(u[..|u| - 1]), EncodeChar(u[|u| - 1]), b, Utf8(init), x);
  }

  lemma PeelOne(p: Bytes, e: Bytes, b: Bytes, q: Bytes, x: Byte)
    requires p + e == b + (q + [x]) && e != [] && (e[|e| - 1] == x ==> |e| == 1)
    ensures e == [x] && p == b + q
  {
    assert b + (q + [x]) == (b + q) + [x];
    LastOne(p, e, b + q, x);
  }

  lemma LastOne(p: Bytes, e: Bytes, w: Bytes, x: Byte)
    requires p + e == w + [x] && e != [] && (e[|e| - 1] == x ==> |e| == 1)
    ensures e == [x] && p == w
  {
    assert (p + e)[|p + e| - 1] == e[|e| - 1];
    assert p == (p + e)[..|p|] && w == (w + [x])[..|w|];
  }

  lemma NoBytes(u: Text)
    ensures Utf8(u) == [] <==> u == []
  {}

  lemma AsciiChar(c: CodePoint)
    requires c < 0x80
    ensures EncodeChar(c) == [c]
  {}

  lemma SnocBytes(t: Text)
    requires t != []
    ensures Utf8(t) == Utf8(t[..|t| - 1]) + EncodeChar(t[|t| - 1])
  {
    hide EncodeChar, Utf8;
    assert t == t[..|t| - 1] + [t[|t| - 1]];
    Utf8Concat(t[..|t| - 1], [t[|t| - 1]]);
    Utf8One(t[|t| - 1]);
  }

  lemma Utf8One(c: CodePoint)
    ensures Utf8([c]) == EncodeChar(c)
  {
    hide EncodeChar;
    assert EncodeChar(c) + Utf8([]) == EncodeChar(c);
  }

  lemma AsciiPlain(t: Text, a: Text)
    requires SurrogateFree(t) && IsAscii(a)
    ensures SurrogateFree(t + a)
  {}

  /** ASCII bytes after any bytes neither repair nor spoil them, and add themselves. */
  lemma AsciiAppended(b: Bytes, a: Text)
    requires IsAscii(a)
    ensures DecodeUtf8(b + Utf8(a)) == if DecodeUtf8(b).None? then None else Some(DecodeUtf8(b).value + a)
  {
    hide DecodeUtf8, Utf8;
    var d, e := DecodeUtf8(b), DecodeUtf8(b + Utf8(a));
    if d.Some? {
      DecodeUtf8Iff(b, d.value);
      Utf8Concat(d.value, a);
      AsciiPlain(d.value, a);
      DecodeUtf8Iff(b + Utf8(a), d.value + a);
    } else if e.Some? {
      DecodeUtf8Iff(b + Utf8(a), e.value);
      AsciiPeels(b, a, e.value);
      DecodeUtf8Iff(b, e.value[..|e.value| - |a|]);
    }
  }
}
