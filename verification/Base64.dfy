/** Base64url without padding (RFC 4648 section 5), the decoder of CPython's binascii in its two
    modes, the exact decoder of signatures and keys, and the loader of seeds. */
module Base64 {
  import opened Wrappers
  import opened Text

  const PAD: CodePoint := 0x3D

  function CharOf(d: nat): CodePoint
    requires d < 64
  {
    if d < 26 then 0x41 + d
    else if d < 52 then 0x61 + (d - 26)
    else if d < 62 then 0x30 + (d - 52)
    else if d == 62 then 0x2D else 0x5F
  }

  /** Decoding translates "-_" to "+/" first, so both spellings are read. */
  function ValueOf(c: CodePoint): (d: Option<nat>)
    ensures d.Some? ==> d.value < 64
  {
    if 0x41 <= c <= 0x5A then Some(c - 0x41)
    else if 0x61 <= c <= 0x7A then Some(c - 0x61 + 26)
    else if 0x30 <= c <= 0x39 then Some(c - 0x30 + 52)
    else if c == 0x2D || c == 0x2B then Some(62)
    else if c == 0x5F || c == 0x2F then Some(63)
    else None
  }

  lemma CharRoundTrip(d: nat)
    requires d < 64
    ensures ValueOf(CharOf(d)) == Some(d) && CharOf(d) != PAD && !IsSpace(CharOf(d)) && CharOf(d) < 0x80
  {}

  // ---------- encoding ----------

  /** base64.urlsafe_b64encode. */
  function Encode(b: Bytes): Text {
    if |b| == 0 then []
    else if |b| == 1 then [CharOf(b[0] / 4), CharOf(b[0] % 4 * 16), PAD, PAD]
    else if |b| == 2 then [CharOf(b[0] / 4), CharOf(b[0] % 4 * 16 + b[1] / 16), CharOf(b[1] % 16 * 4), PAD]
    else [CharOf(b[0] / 4), CharOf(b[0] % 4 * 16 + b[1] / 16), CharOf(b[1] % 16 * 4 + b[2] / 64), CharOf(b[2] % 64)]
         + Encode(b[3..])
  }

  /** t.rstrip("="). */
  function StripPads(t: Text): Text {
    if t != [] && t[|t| - 1] == PAD then StripPads(t[..|t| - 1]) else t
  }

  /** _b64url. */
  function B64Url(b: Bytes): Text { StripPads(Encode(b)) }

  function Pads(n: nat): (t: Text)
    ensures |t| == n
  {
    seq(n, _ => PAD)
  }

  /** "=" * (-n % 4). */
  function Missing(n: nat): nat { (4 - n % 4) % 4 }

  /** The unpadded text by groups of three bytes. */
  function Groups(b: Bytes): Text {
    if |b| == 0 then []
    else if |b| == 1 then [CharOf(b[0] / 4), CharOf(b[0] % 4 * 16)]
    else if |b| == 2 then [CharOf(b[0] / 4), CharOf(b[0] % 4 * 16 + b[1] / 16), CharOf(b[1] % 16 * 4)]
    else [CharOf(b[0] / 4), CharOf(b[0] % 4 * 16 + b[1] / 16), CharOf(b[1] % 16 * 4 + b[2] / 64), CharOf(b[2] % 64)]
         + Groups(b[3..])
  }

  predicate UrlChar(c: CodePoint) { ValueOf(c).Some? && c != 0x2B && c != 0x2F }

  lemma UrlCharOf(d: nat)
    requires d < 64
    ensures UrlChar(CharOf(d))
  {}

  lemma {:induction false} GroupsAlphabet(b: Bytes)
    ensures forall i | 0 <= i < |Groups(b)| :: UrlChar(Groups(b)[i])
  {
    hide CharOf, UrlChar;
    forall d: nat | d < 64 ensures UrlChar(CharOf(d)) { UrlCharOf(d); }
    if |b| >= 3 { GroupsAlphabet(b[3..]); }
  }

  lemma GroupsShape(b: Bytes)
    ensures |Groups(b)| == (4 * |b| + 2) / 3
    ensures forall i | 0 <= i < |Groups(b)| :: UrlChar(Groups(b)[i])
    ensures Encode(b) == Groups(b) + Pads(Missing(|Groups(b)|))
  {
    hide Groups, Encode, UrlChar, Pads, Missing;
    GroupsAlphabet(b);
    GroupsPadded(b);
  }

  lemma {:induction false} GroupsPadded(b: Bytes)
    ensures |Groups(b)| == (4 * |b| + 2) / 3
    ensures Encode(b) == Groups(b) + Pads(Missing(|Groups(b)|))
  {
    hide CharOf, Pads, Missing;
    if |b| >= 3 {
      GroupsPadded(b[3..]);
      var four := Regrouped(b);
      hide Groups, Encode;
      FourMore(|Groups(b[3..])|);
      var pads := Pads(Missing(|Groups(b[3..])|));
      assert four + (Groups(b[3..]) + pads) == four + Groups(b[3..]) + pads;
    } else {
      FourMore(0);
      TwoPads();
    }
  }

  /** The first four characters, and the rest. */
  lemma Regrouped(b: Bytes) returns (four: Text)
    requires |b| >= 3
    ensures |four| == 4 && Groups(b) == four + Groups(b[3..]) && Encode(b) == four + Encode(b[3..])
  {
    hide CharOf;
    four := [CharOf(b[0] / 4), CharOf(b[0] % 4 * 16 + b[1] / 16), CharOf(b[1] % 16 * 4 + b[2] / 64), CharOf(b[2] % 64)];
  }

  lemma FourMore(n: nat)
    ensures Missing(n + 4) == Missing(n)
    ensures Missing(0) == 0 && Missing(2) == 2 && Missing(3) == 1
  {}

  lemma TwoPads()
    ensures Pads(0) == [] && Pads(1) == [PAD] && Pads(2) == [PAD, PAD]
  {}

  lemma {:induction false} StripPadded(t: Text, n: nat)
    requires t == [] || t[|t| - 1] != PAD
    ensures StripPads(t + Pads(n)) == t
  {
    if n == 0 {
      assert t + Pads(0) == t;
    } else {
      assert (t + Pads(n))[..|t| + n - 1] == t + Pads(n - 1);
      StripPadded(t, n - 1);
    }
  }

  /** The text of n bytes: its length, its alphabet, and that only padding was stripped. */
  lemma EncodedShape(b: Bytes)
    ensures B64Url(b) == Groups(b) && |B64Url(b)| == (4 * |b| + 2) / 3
    ensures forall i | 0 <= i < |B64Url(b)| :: UrlChar(B64Url(b)[i])
  {
    GroupsShape(b);
    var g := Groups(b);
    if g != [] { assert UrlChar(g[|g| - 1]); }
    StripPadded(g, Missing(|g|));
  }

  // ---------- decoding ----------

  /** binascii.a2b_base64 with q characters of the current group read, their unused low bits in
      left, pads padding characters seen, and padding set once any was. Strict mode refuses
      what the lenient mode skips. */
  function A2b(t: Text, strict: bool, q: nat, left: nat, pads: nat, padding: bool): Option<Bytes>
    requires (q == 0 && left == 0) || (q == 1 && left < 64) || (q == 2 && left < 16) || (q == 3 && left < 4)
  {
    if t == [] then (if q == 0 then Some([]) else None)
    else if t[0] == PAD then
      if strict && q == 0 then None
      else if q >= 2 && q + pads + 1 >= 4 then (if strict && |t| > 1 then None else Some([]))
      else A2b(t[1..], strict, q, left, if q >= 2 then pads + 1 else pads, true)
    else match ValueOf(t[0])
      case None => if strict then None else A2b(t[1..], strict, q, left, pads, padding)
      case Some(d) =>
        if strict && padding then None
        else if q == 0 then A2b(t[1..], strict, 1, d, 0, padding)
        else if q == 1 then Prepend(left * 4 + d / 16, A2b(t[1..], strict, 2, d % 16, 0, padding))
        else if q == 2 then Prepend(left * 16 + d / 4, A2b(t[1..], strict, 3, d % 4, 0, padding))
        else Prepend(left * 64 + d, A2b(t[1..], strict, 0, 0, 0, padding))
  }

  function Prepend(x: Byte, r: Option<Bytes>): Option<Bytes> {
    match r
    case None => None
    case Some(b) => Some([x] + b)
  }

  function Decode(t: Text, strict: bool): Option<Bytes> { A2b(t, strict, 0, 0, 0, false) }

  /** One data character moves the decoder one step. */
  lemma Step(c: CodePoint, d: nat, t: Text, strict: bool, q: nat, left: nat)
    requires ValueOf(c) == Some(d) && c != PAD
    requires (q == 0 && left == 0) || (q == 1 && left < 64) || (q == 2 && left < 16) || (q == 3 && left < 4)
    ensures A2b([c] + t, strict, q, left, 0, false) ==
      if q == 0 then A2b(t, strict, 1, d, 0, false)
      else if q == 1 then Prepend(left * 4 + d / 16, A2b(t, strict, 2, d % 16, 0, false))
      else if q == 2 then Prepend(left * 16 + d / 4, A2b(t, strict, 3, d % 4, 0, false))
      else Prepend(left * 64 + d, A2b(t, strict, 0, 0, 0, false))
  {
    assert ([c] + t)[1..] == t;
  }

  lemma GroupBack(x: Byte, y: Byte, z: Byte, t: Text, strict: bool)
    ensures Decode([CharOf(x / 4), CharOf(x % 4 * 16 + y / 16), CharOf(y % 16 * 4 + z / 64), CharOf(z % 64)] + t, strict)
         == Prepend(x, Prepend(y, Prepend(z, Decode(t, strict))))
  {
    var a: nat, b: nat, c: nat, d: nat := x / 4, x % 4 * 16 + y / 16, y % 16 * 4 + z / 64, z % 64;
    assert a * 4 + b / 16 == x && b % 16 * 16 + c / 4 == y && c % 4 * 64 + d == z;
    hide A2b, CharOf, ValueOf, Prepend;
    CharRoundTrip(a);
    CharRoundTrip(b);
    CharRoundTrip(c);
    CharRoundTrip(d);
    var t3 := [CharOf(d)] + t;
    var t2 := [CharOf(c)] + t3;
    var t1 := [CharOf(b)] + t2;
    assert [CharOf(a), CharOf(b), CharOf(c), CharOf(d)] + t == [CharOf(a)] + t1;
    Step(CharOf(a), a, t1, strict, 0, 0);
    Step(CharOf(b), b, t2, strict, 1, a);
    Step(CharOf(c), c, t3, strict, 2, b % 16);
    Step(CharOf(d), d, t, strict, 3, c % 4);
  }

  lemma OneByteThen(x: Byte, t: Text, strict: bool)
    ensures Decode([CharOf(x / 4), CharOf(x % 4 * 16)] + t, strict) == Prepend(x, A2b(t, strict, 2, 0, 0, false))
  {
    var a: nat, b: nat := x / 4, x % 4 * 16;
    assert a * 4 + b / 16 == x && b % 16 == 0;
    hide A2b, CharOf, ValueOf, Prepend;
    CharRoundTrip(a);
    CharRoundTrip(b);
    assert [CharOf(a), CharOf(b)] + t == [CharOf(a)] + ([CharOf(b)] + t);
    Step(CharOf(a), a, [CharOf(b)] + t, strict, 0, 0);
    Step(CharOf(b), b, t, strict, 1, a);
  }

  lemma TwoBytesThen(x: Byte, y: Byte, t: Text, strict: bool)
    ensures Decode([CharOf(x / 4), CharOf(x % 4 * 16 + y / 16), CharOf(y % 16 * 4)] + t, strict)
         == Prepend(x, Prepend(y, A2b(t, strict, 3, 0, 0, false)))
  {
    var a: nat, b: nat, c: nat := x / 4, x % 4 * 16 + y / 16, y % 16 * 4;
    assert a * 4 + b / 16 == x && b % 16 * 16 + c / 4 == y && c % 4 == 0;
    hide A2b, CharOf, ValueOf, Prepend;
    CharRoundTrip(a);
    CharRoundTrip(b);
    CharRoundTrip(c);
    var t2 := [CharOf(c)] + t;
    assert [CharOf(a), CharOf(b), CharOf(c)] + t == [CharOf(a)] + ([CharOf(b)] + t2);
    Step(CharOf(a), a, [CharOf(b)] + t2, strict, 0, 0);
    Step(CharOf(b), b, t2, strict, 1, a);
    Step(CharOf(c), c, t, strict, 2, b % 16);
  }

  lemma GroupsOfFew(b: Bytes)
    ensures |b| == 1 ==> Groups(b) == [CharOf(b[0] / 4), CharOf(b[0] % 4 * 16)]
    ensures |b| == 2 ==> Groups(b) == [CharOf(b[0] / 4), CharOf(b[0] % 4 * 16 + b[1] / 16), CharOf(b[1] % 16 * 4)]
  {
    hide CharOf;
  }

  lemma OneThen(x: Byte, t: Text, strict: bool)
    ensures Decode([CharOf(x / 4), CharOf(x % 4 * 16)] + (Pads(2) + t), strict) == if strict && t != [] then None else Some([x])
    ensures Decode([CharOf(x / 4), CharOf(x % 4 * 16)] + [], strict).None?
  {
    hide A2b, CharOf, Pads, Decode;
    PadsThen(2, t, strict);
    EndsEarly(strict);
    OneByteThen(x, Pads(2) + t, strict);
    OneByteThen(x, [], strict);
    assert [x] + [] == [x];
  }

  lemma TwoThen(x: Byte, y: Byte, t: Text, strict: bool)
    ensures var g := [CharOf(x / 4), CharOf(x % 4 * 16 + y / 16), CharOf(y % 16 * 4)];
      && Decode(g + (Pads(1) + t), strict) == (if strict && t != [] then None else Some([x, y]))
      && Decode(g + [], strict).None?
  {
    hide A2b, CharOf, Pads, Decode;
    PadsThen(3, t, strict);
    EndsEarly(strict);
    TwoBytesThen(x, y, Pads(1) + t, strict);
    TwoBytesThen(x, y, [], strict);
    assert [x] + ([y] + []) == [x, y];
  }

  lemma FewThen(b: Bytes, t: Text, strict: bool)
    requires 1 <= |b| <= 2
    ensures Decode(Groups(b) + (Pads(3 - |b|) + t), strict) == if strict && t != [] then None else Some(b)
    ensures Decode(Groups(b) + [], strict).None?
  {
    GroupsOfFew(b);
    hide A2b, CharOf, Pads, Groups, Decode;
    if |b| == 1 {
      OneThen(b[0], t, strict);
      assert [b[0]] == b;
    } else {
      TwoThen(b[0], b[1], t, strict);
      assert [b[0], b[1]] == b;
    }
  }

  lemma EndsEarly(strict: bool)
    ensures A2b([], strict, 2, 0, 0, false) == None && A2b([], strict, 3, 0, 0, false) == None
  {}

  lemma PadsThen(q: nat, x: Text, strict: bool)
    requires 2 <= q <= 3
    ensures A2b(Pads(4 - q) + x, strict, q, 0, 0, false) == if strict && x != [] then None else Some([])
  {
    var t := Pads(4 - q) + x;
    assert t[0] == PAD;
    if q == 2 {
      assert t[1..] == [PAD] + x && (|[PAD] + x| > 1 <==> x != []);
      assert A2b([PAD] + x, strict, 2, 0, 1, true) == if strict && x != [] then None else Some([]);
    }
  }

  /** Decoding inverts encoding, in both modes. */
  lemma {:induction false} DecodeEncode(b: Bytes, strict: bool)
    ensures Decode(Groups(b) + Pads(Missing(|Groups(b)|)), strict) == Some(b)
  {
    GroupsShape(b);
    hide A2b, CharOf, Decode, Pads;
    if |b| >= 3 {
      var g := Groups(b[3..]);
      GroupsShape(b[3..]);
      var t := g + Pads(Missing(|g|));
      DecodeEncode(b[3..], strict);
      GroupBack(b[0], b[1], b[2], t, strict);
      var four := [CharOf(b[0] / 4), CharOf(b[0] % 4 * 16 + b[1] / 16), CharOf(b[1] % 16 * 4 + b[2] / 64), CharOf(b[2] % 64)];
      assert Groups(b) + Pads(Missing(|Groups(b)|)) == four + t;
      assert b == [b[0]] + ([b[1]] + ([b[2]] + b[3..]));
    } else if b != [] {
      FewThen(b, [], strict);
      hide Groups;
      assert Pads(3 - |b|) + [] == Pads(3 - |b|);
    } else {
      DecodeNothing(strict);
    }
  }

  lemma DecodeNothing(strict: bool)
    ensures Decode([] + Pads(0), strict) == Some([])
  {
    assert [] + Pads(0) == [];
  }

  // ---------- what the lenient decoder makes of other text ----------

  /** The characters it does not skip. */
  function Kept(t: Text): Text {
    if t == [] then [] else (if t[0] == PAD || ValueOf(t[0]).Some? then [t[0]] else []) + Kept(t[1..])
  }

  lemma {:induction false} LenientState(t: Text, q: nat, left: nat, pads: nat, padding: bool, padding': bool)
    requires (q == 0 && left == 0) || (q == 1 && left < 64) || (q == 2 && left < 16) || (q == 3 && left < 4)
    ensures A2b(t, false, q, left, pads, padding) == A2b(Kept(t), false, q, left, pads, padding')
  {
    hide ValueOf, Prepend;
    if t != [] {
      var k := Kept(t[1..]);
      assert ([t[0]] + k)[1..] == k && [] + k == k;
      if t[0] == PAD {
        LenientState(t[1..], q, left, if q >= 2 then pads + 1 else pads, true, true);
      } else if ValueOf(t[0]).None? {
        LenientState(t[1..], q, left, pads, padding, padding');
      } else {
        var d := ValueOf(t[0]).value;
        if q == 0 { LenientState(t[1..], 1, d, 0, padding, padding'); }
        else if q == 1 { LenientState(t[1..], 2, d % 16, 0, padding, padding'); }
        else if q == 2 { LenientState(t[1..], 3, d % 4, 0, padding, padding'); }
        else { LenientState(t[1..], 0, 0, 0, padding, padding'); }
      }
    }
  }

  /** Characters of neither alphabet are skipped, and so is padding before a group can end. */
  lemma LenientSkips(t: Text)
    ensures Decode(t, false) == Decode(Kept(t), false)
    ensures Decode([PAD] + t, false) == Decode(t, false)
  {
    LenientState(t, 0, 0, 0, false, false);
    LenientState(t, 0, 0, 0, true, false);
    assert ([PAD] + t)[1..] == t;
  }

  /** The standard alphabet's spelling of a text in the URL alphabet. */
  function Standard(t: Text): Text {
    if t == [] then [] else [if t[0] == 0x2D then 0x2B else if t[0] == 0x5F then 0x2F else t[0]] + Standard(t[1..])
  }

  lemma {:induction false} StandardState(t: Text, strict: bool, q: nat, left: nat, pads: nat, padding: bool)
    requires (q == 0 && left == 0) || (q == 1 && left < 64) || (q == 2 && left < 16) || (q == 3 && left < 4)
    ensures A2b(Standard(t), strict, q, left, pads, padding) == A2b(t, strict, q, left, pads, padding)
  {
    if t != [] {
      SameValue(t[0]);
      hide ValueOf, Prepend;
      assert Standard(t)[1..] == Standard(t[1..]) && (|Standard(t)| > 1 <==> |t| > 1);
      if t[0] == PAD {
        StandardState(t[1..], strict, q, left, if q >= 2 then pads + 1 else pads, true);
      } else if ValueOf(t[0]).None? {
        StandardState(t[1..], strict, q, left, pads, padding);
      } else {
        var d := ValueOf(t[0]).value;
        if q == 0 { StandardState(t[1..], strict, 1, d, 0, padding); }
        else if q == 1 { StandardState(t[1..], strict, 2, d % 16, 0, padding); }
        else if q == 2 { StandardState(t[1..], strict, 3, d % 4, 0, padding); }
        else { StandardState(t[1..], strict, 0, 0, 0, padding); }
      }
    }
  }

  lemma SameValue(c: CodePoint)
    ensures var s := if c == 0x2D then 0x2B else if c == 0x5F then 0x2F else c;
      ValueOf(s) == ValueOf(c) && (s == PAD <==> c == PAD)
  {}

  /** Both decoders read both alphabets alike. */
  lemma AlphabetsAlike(t: Text, strict: bool)
    ensures Decode(Standard(t), strict) == Decode(t, strict)
  {
    StandardState(t, strict, 0, 0, 0, false);
  }

  lemma GroupsSplit(b: Bytes)
    requires 3 <= |b|
    ensures Groups(b) == [CharOf(b[0] / 4), CharOf(b[0] % 4 * 16 + b[1] / 16), CharOf(b[1] % 16 * 4 + b[2] / 64),
                          CharOf(b[2] % 64)] + Groups(b[3..])
  {
    hide CharOf;
  }

  lemma MoreThen(b: Bytes, t: Text, strict: bool)
    requires 3 <= |b|
    ensures Decode(Groups(b) + t, strict)
         == Prepend(b[0], Prepend(b[1], Prepend(b[2], Decode(Groups(b[3..]) + t, strict))))
  {
    hide A2b, CharOf, Decode, Groups, Prepend;
    GroupsSplit(b);
    GroupBack(b[0], b[1], b[2], Groups(b[3..]) + t, strict);
    ConcatThree(Groups(b), [CharOf(b[0] / 4), CharOf(b[0] % 4 * 16 + b[1] / 16), CharOf(b[1] % 16 * 4 + b[2] / 64),
                            CharOf(b[2] % 64)], Groups(b[3..]), t);
  }

  lemma ConcatThree(whole: Text, a: Text, b: Text, t: Text)
    requires whole == a + b
    ensures whole + t == a + (b + t)
  {}

  lemma {:induction false} GroupsThen(b: Bytes, x: Text, strict: bool)
    requires |b| % 3 != 0
    ensures Decode(Groups(b) + (Pads(3 - |b| % 3) + x), strict) == if strict && x != [] then None else Some(b)
    ensures Decode(Groups(b) + [], strict).None?
    decreases |b|
  {
    hide A2b, CharOf, Decode, Pads, Groups;
    if |b| >= 3 {
      GroupsThen(b[3..], x, strict);
      MoreThen(b, Pads(3 - |b| % 3) + x, strict);
      MoreThen(b, [], strict);
      assert b == [b[0]] + ([b[1]] + ([b[2]] + b[3..]));
    } else {
      FewThen(b, x, strict);
    }
  }

  lemma PadMarks()
    ensures Pads(1) == T("=") && Pads(2) == T("==")
  {}

  lemma EncodeSpelled(b: Bytes)
    requires |b| % 3 != 0
    ensures Encode(b) == Groups(b) + (if |b| % 3 == 1 then T("==") else T("="))
  {
    PadMarks();
    hide Encode, Groups, Pads, T;
    EncodeEnds(b);
    if |b| % 3 == 1 { assert 3 - |b| % 3 == 2; } else { assert 3 - |b| % 3 == 1; }
  }

  lemma EncodeThen(b: Bytes, m: nat, x: Text, strict: bool)
    requires Encode(b) == Groups(b) + Pads(m)
    requires Decode(Groups(b) + (Pads(m) + x), strict) == if strict && x != [] then None else Some(b)
    ensures Decode(Encode(b) + x, strict) == if strict && x != [] then None else Some(b)
  {
    hide A2b, Decode, Pads, Encode, Groups;
    ConcatThree(Encode(b), Groups(b), Pads(m), x);
  }

  /** Padding that completes a group ends the text: the lenient decoder stops reading there, the strict
      one refuses what follows. Without it the last group is incomplete for both. */
  lemma PaddingEnds(b: Bytes, x: Text, strict: bool)
    requires |b| % 3 != 0
    ensures Encode(b) == Groups(b) + (if |b| % 3 == 1 then T("==") else T("="))
    ensures Decode(Encode(b) + x, strict) == if strict && x != [] then None else Some(b)
    ensures Decode(Groups(b), strict).None?
  {
    hide A2b, CharOf, Decode, Pads, Encode, Groups, T;
    EncodeSpelled(b);
    EncodeEnds(b);
    GroupsThen(b, x, strict);
    NothingMore(Groups(b));
    EncodeThen(b, 3 - |b| % 3, x, strict);
  }

  lemma NothingMore(t: Text)
    ensures t + [] == t
  {}

  lemma EncodeEnds(b: Bytes)
    requires |b| % 3 != 0
    ensures Encode(b) == Groups(b) + Pads(3 - |b| % 3)
  {
    hide Encode, Groups, Pads;
    GroupsShape(b);
  }

  /** Encoding loses nothing. */
  lemma B64UrlInjective(a: Bytes, b: Bytes)
    requires B64Url(a) == B64Url(b)
    ensures a == b
  {
    EncodedShape(a);
    EncodedShape(b);
    DecodeEncode(a, true);
    DecodeEncode(b, true);
  }

  // ---------- the exact decoder ----------

  /** _decode_exact on a string, and _b64url_decode with a length. */
  function DecodeExact(v: Text, size: nat): Option<Bytes> {
    var raw :- Decode(v + Pads(Missing(|v|)), true);
    if |raw| != size || B64Url(raw) != v then None else Some(raw)
  }

  /** The exact decoder accepts precisely the encodings of size bytes, and inverts them. */
  lemma DecodeExactIff(v: Text, size: nat, b: Bytes)
    ensures DecodeExact(v, size) == Some(b) <==> |b| == size && v == B64Url(b)
  {
    hide A2b, Decode;
    if |b| == size && v == B64Url(b) {
      EncodedShape(b);
      DecodeEncode(b, true);
    }
  }

  /** Padding, the standard alphabet's "+" and "/", and stray bits after the last byte are refused. */
  lemma DecodeExactRefuses(v: Text, size: nat)
    requires DecodeExact(v, size).Some?
    ensures |v| == (4 * size + 2) / 3 && forall i | 0 <= i < |v| :: UrlChar(v[i]) && v[i] != PAD
    ensures size % 3 != 0 ==> v != [] && var d := ValueOf(v[|v| - 1]);
      d.Some? && d.value % (if size % 3 == 1 then 16 else 4) == 0
  {
    hide A2b, Decode;
    var b := DecodeExact(v, size).value;
    DecodeExactIff(v, size, b);
    EncodedShape(b);
    if size % 3 != 0 { LastBits(b); }
  }

  lemma {:induction false} LastBits(b: Bytes)
    requires |b| % 3 != 0
    ensures Groups(b) != []
    ensures ValueOf(Groups(b)[|Groups(b)| - 1]).Some?
    ensures ValueOf(Groups(b)[|Groups(b)| - 1]).value % (if |b| % 3 == 1 then 16 else 4) == 0
  {
    if |b| >= 3 {
      LastBits(b[3..]);
    } else if |b| == 1 {
      CharRoundTrip(b[0] % 4 * 16);
    } else {
      CharRoundTrip(b[1] % 16 * 4);
    }
  }
}
