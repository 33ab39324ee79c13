/** Python strings: sequences of code points, in which lone surrogates may occur. */
module Text {
  type CodePoint = c: int | 0 <= c < 0x11_0000
  type Text = seq<CodePoint>
  type Byte = b: int | 0 <= b < 0x100
  type Bytes = seq<Byte>

  predicate IsSurrogate(c: CodePoint) { 0xD800 <= c <= 0xDFFF }
  predicate IsHigh(c: CodePoint) { 0xD800 <= c <= 0xDBFF }
  predicate IsLow(c: CodePoint) { 0xDC00 <= c <= 0xDFFF }

  predicate SurrogateFree(s: Text) { forall i | 0 <= i < |s| :: !IsSurrogate(s[i]) }

  /** ASCII without control characters. */
  predicate Printable(t: Text) { forall i | 0 <= i < |t| :: 0x20 <= t[i] < 0x7F }

  /** A string literal of the program as a text. */
  function T(s: string): (t: Text)
    ensures |t| == |s| && forall i | 0 <= i < |s| :: t[i] == s[i] as int
  {
    seq(|s|, i requires 0 <= i < |s| => s[i] as int)
  }

  /** Python's str.isspace. */
  predicate IsSpace(c: CodePoint) {
    0x09 <= c <= 0x0D || 0x1C <= c <= 0x20 || c == 0x85 || c == 0xA0 || c == 0x1680
    || 0x2000 <= c <= 0x200A || c == 0x2028 || c == 0x2029 || c == 0x202F || c == 0x205F || c == 0x3000
  }

  function StripFront(t: Text): Text { if t != [] && IsSpace(t[0]) then StripFront(t[1..]) else t }

  function StripBack(t: Text): (r: Text)
    ensures r <= t
  {
    if t != [] && IsSpace(t[|t| - 1]) then StripBack(t[..|t| - 1]) else t
  }

  /** str.strip(). */
  function Strip(t: Text): Text { StripBack(StripFront(t)) }
}
