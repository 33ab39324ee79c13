/** load_private_key: a 32-byte seed as base64url or hexadecimal, with an optional prefix. */
module Seeds {
  import opened Wrappers
  import opened Text
  import opened JsonParser
  import opened Base64

  const SEED_SIZE: nat := 32

  // "sk_", "priv_", "ed25519:"
  const SK: Text := [0x73, 0x6B, 0x5F]
  const PRIV: Text := [0x70, 0x72, 0x69, 0x76, 0x5F]
  const ED: Text := [0x65, 0x64, 0x32, 0x35, 0x35, 0x31, 0x39, 0x3A]

  /** ASCII whitespace, which bytes.fromhex skips between bytes. */
  predicate IsHexSpace(c: CodePoint) { c == 0x20 || 0x09 <= c <= 0x0D }

  /** bytes.fromhex. */
  function FromHex(t: Text): Option<Bytes> {
    if t == [] then Some([])
    else if IsHexSpace(t[0]) then FromHex(t[1..])
    else if |t| < 2 then None
    else
      var a :- HexDigit(t[0]);
      var b :- HexDigit(t[1]);
      var rest :- FromHex(t[2..]);
      Some([16 * a + b] + rest)
  }

  predicate Ascii(t: Text) { forall i | 0 <= i < |t| :: t[i] < 0x80 }

  /** base64.urlsafe_b64decode, which raises on text that is not ASCII. */
  function LenientDecode(t: Text): Option<Bytes> {
    if Ascii(t) then Decode(t, false) else None
  }

  function Unprefixed(s: Text): Text {
    if ED <= s then s[8..] else if PRIV <= s then s[5..] else if SK <= s then s[3..] else s
  }

  /** load_private_key up to the raw seed; None is ValueError. */
  function LoadSeed(seed: Text): Option<Bytes> {
    var s := Unprefixed(Strip(seed));
    var b := LenientDecode(s + Pads(Missing(|s|)));
    if b.Some? && |b.value| == SEED_SIZE then b
    else
      var h := FromHex(s);
      if h.Some? && |h.value| == SEED_SIZE then h else None
  }

  // ---------- texts that spell a seed ----------

  /** h spells b in hexadecimal, in any mixture of letter cases. */
  predicate HexOf(h: Text, b: Bytes) {
    |h| == 2 * |b| && forall i | 0 <= i < |b| ::
      && HexDigit(h[2 * i]).Some? && HexDigit(h[2 * i + 1]).Some?
      && b[i] == 16 * HexDigit(h[2 * i]).value + HexDigit(h[2 * i + 1]).value
  }

  lemma {:induction false} FromHexOf(h: Text, b: Bytes)
    requires HexOf(h, b)
    ensures FromHex(h) == Some(b)
    decreases |b|
  {
    hide HexDigit, IsHexSpace;
    if b != [] {
      assert HexDigit(h[2 * 0]).Some? && HexDigit(h[2 * 0 + 1]).Some?;
      HexIsNoSpace(h[0]);
      HexRest(h, b);
      FromHexOf(h[2..], b[1..]);
      assert b == [b[0]] + b[1..];
    }
  }

  lemma HexIsNoSpace(c: CodePoint)
    requires HexDigit(c).Some?
    ensures !IsHexSpace(c)
  {}

  lemma HexRest(h: Text, b: Bytes)
    requires HexOf(h, b) && b != []
    ensures HexOf(h[2..], b[1..])
  {
    hide HexDigit;
    forall i | 0 <= i < |b| - 1
      ensures HexDigit(h[2..][2 * i]).Some? && HexDigit(h[2..][2 * i + 1]).Some?
      ensures b[1..][i] == 16 * HexDigit(h[2..][2 * i]).value + HexDigit(h[2..][2 * i + 1]).value
    {
      assert h[2..][2 * i] == h[2 * (i + 1)] && h[2..][2 * i + 1] == h[2 * (i + 1) + 1];
    }
  }

  /** Text of data characters alone. */
  predicate DataText(t: Text) { forall i | 0 <= i < |t| :: ValueOf(t[i]).Some? }

  lemma {:induction false} LengthDecoded(t: Text)
    requires DataText(t) && |t| % 4 != 1
    ensures var r := Decode(t + Pads(Missing(|t|)), false);
      r.Some? && |r.value| == 3 * (|t| / 4) + (if |t| % 4 == 0 then 0 else |t| % 4 - 1)
    decreases |t|
  {
    hide ValueOf;
    if |t| >= 4 {
      var u := t[4..] + Pads(Missing(|t[4..]|));
      assert t + Pads(Missing(|t|)) == t[..4] + u;
      LengthDecoded(t[4..]);
      FourDecoded(t[..4], u);
    } else {
      FewDecoded(t);
    }
  }

  lemma FewDecoded(t: Text)
    requires DataText(t) && |t| < 4 && |t| != 1
    ensures var r := Decode(t + Pads(Missing(|t|)), false);
      r.Some? && |r.value| == (if |t| == 0 then 0 else |t| - 1)
  {
    hide A2b;
    if |t| == 0 {
      DecodeNothing(false);
      assert t + Pads(0) == [] + Pads(0);
    } else {
      NotPad(t[0]);
      NotPad(t[1]);
      var d0, d1 := ValueOf(t[0]).value, ValueOf(t[1]).value;
      if |t| == 2 {
        var t1 := [t[1]] + Pads(2);
        assert t + Pads(2) == [t[0]] + t1;
        Step(t[0], d0, t1, false, 0, 0);
        Step(t[1], d1, Pads(2), false, 1, d0);
        TwoPads(d1 % 16);
      } else {
        NotPad(t[2]);
        var t2 := [t[2]] + Pads(1);
        var t1 := [t[1]] + t2;
        assert t + Pads(1) == [t[0]] + t1;
        Step(t[0], d0, t1, false, 0, 0);
        Step(t[1], d1, t2, false, 1, d0);
        Step(t[2], ValueOf(t[2]).value, Pads(1), false, 2, d1 % 16);
        OnePad(ValueOf(t[2]).value % 4);
      }
    }
  }

  lemma NotPad(c: CodePoint)
    requires ValueOf(c).Some?
    ensures c != PAD
  {}

  lemma OnePad(left: nat)
    requires left < 4
    ensures A2b(Pads(1), false, 3, left, 0, false) == Some([])
  {
    assert Pads(1) == [PAD];
  }

  lemma TwoPads(left: nat)
    requires left < 16
    ensures A2b(Pads(2), false, 2, left, 0, false) == Some([])
  {
    assert Pads(2) == [PAD, PAD] && [PAD, PAD][1..] == [PAD];
    assert A2b([PAD], false, 2, left, 1, true) == Some([]);
  }

  lemma FourDecoded(t: Text, u: Text)
    requires |t| == 4 && DataText(t) && Decode(u, false).Some?
    ensures Decode(t + u, false).Some? && |Decode(t + u, false).value| == 3 + |Decode(u, false).value|
  {
    hide A2b;
    var d0, d1, d2, d3 := ValueOf(t[0]).value, ValueOf(t[1]).value, ValueOf(t[2]).value, ValueOf(t[3]).value;
    NotPad(t[0]);
    NotPad(t[1]);
    NotPad(t[2]);
    NotPad(t[3]);
    var t3 := [t[3]] + u;
    var t2 := [t[2]] + t3;
    var t1 := [t[1]] + t2;
    assert t + u == [t[0]] + t1;
    Step(t[0], d0, t1, false, 0, 0);
    Step(t[1], d1, t2, false, 1, d0);
    Step(t[2], d2, t3, false, 2, d1 % 16);
    Step(t[3], d3, u, false, 3, d2 % 4);
  }

  // ---------- stripping and prefixes ----------

  lemma StripTight(t: Text)
    requires t != [] && !IsSpace(t[0]) && !IsSpace(t[|t| - 1])
    ensures Strip(t) == t
  {}

  /** No prefix, or a documented one. */
  predicate Prefix(p: Text) { p == [] || p == T("sk_") || p == T("priv_") || p == T("ed25519:") }

  lemma PrefixTexts()
    ensures SK == T("sk_") && PRIV == T("priv_") && ED == T("ed25519:")
  {}

  /** A documented prefix is taken off; without one, the text must not happen to start with one. */
  lemma PrefixOff(p: Text, body: Text)
    requires Prefix(p) && body != [] && DataText(body)
    requires p == [] ==> !(SK <= body) && !(PRIV <= body)
    ensures Unprefixed(Strip(p + body)) == body
  {
    PrefixTexts();
    DataNotSpace(body[|body| - 1]);
    DataNotSpace(body[0]);
    var t := p + body;
    assert t[|p|..] == body && t[|t| - 1] == body[|body| - 1];
    StripTight(t);
    if p == [] {
      assert t == body;
      NoColon(body);
    } else {
      assert p <= t && t[0] == p[0];
    }
  }

  lemma NoColon(t: Text)
    requires DataText(t)
    ensures !(ED <= t)
  {
    assert 8 <= |t| ==> t[7] != ED[7];
  }

  lemma DataNotSpace(c: CodePoint)
    requires ValueOf(c).Some?
    ensures !IsSpace(c) && c < 0x80
  {}

  lemma HexIsData(h: Text, b: Bytes)
    requires HexOf(h, b)
    ensures DataText(h) && !(SK <= h) && !(PRIV <= h)
  {
    forall i | 0 <= i < |h| ensures ValueOf(h[i]).Some? && HexDigit(h[i]).Some? {
      assert HexDigit(h[2 * (i / 2)]).Some? && HexDigit(h[2 * (i / 2) + 1]).Some?;
      assert i == 2 * (i / 2) || i == 2 * (i / 2) + 1;
    }
    assert h != [] ==> h[0] != SK[0] && h[0] != PRIV[0];
  }

  // ---------- main results ----------

  /** Every seed is recovered from hexadecimal with no prefix or any documented one; the base64
      reading of such text never has the size of a seed. */
  lemma HexSeedLoads(p: Text, h: Text, b: Bytes)
    requires Prefix(p) && |b| == SEED_SIZE && HexOf(h, b)
    ensures LoadSeed(p + h) == Some(b)
  {
    hide Decode, Unprefixed, Strip, HexOf, DataText;
    HexIsData(h, b);
    assert |h| == 64 by { HexLength64(h, b); }
    PrefixOff(p, h);
    FromHexOf(h, b);
    LengthDecoded(h);
  }

  lemma HexLength64(h: Text, b: Bytes)
    requires HexOf(h, b) && |b| == SEED_SIZE
    ensures |h| == 64
  {}

  lemma EncodedIsData(b: Bytes)
    ensures DataText(B64Url(b)) && Ascii(B64Url(b) + Pads(Missing(|B64Url(b)|)))
  {
    EncodedShape(b);
    forall i | 0 <= i < |B64Url(b)| ensures ValueOf(B64Url(b)[i]).Some? && B64Url(b)[i] < 0x80 {
      assert UrlChar(B64Url(b)[i]);
    }
  }

  /** With a documented prefix every seed is recovered from base64url; the bare text is, exactly
      when it does not itself start with "sk_" or "priv_". */
  lemma Base64SeedLoads(p: Text, b: Bytes)
    requires Prefix(p) && |b| == SEED_SIZE
    ensures LoadSeed(p + B64Url(b)) == Some(b) <==> p != [] || (!(T("sk_") <= B64Url(b)) && !(T("priv_") <= B64Url(b)))
  {
    PrefixTexts();
    hide Decode, Unprefixed, Strip, DataText, Ascii, FromHex;
    var t := B64Url(b);
    EncodedShape(b);
    EncodedIsData(b);
    if p != [] || (!(SK <= t) && !(PRIV <= t)) {
      PrefixOff(p, t);
      DecodeEncode(b, false);
    } else {
      assert p + t == t;
      MistakenPrefix(t);
    }
  }

  /** A bare text mistaken for a prefixed one loses characters, and what is left is no seed. */
  lemma MistakenPrefix(t: Text)
    requires |t| == 43 && DataText(t) && (SK <= t || PRIV <= t)
    ensures LoadSeed(t).None?
  {
    hide Decode;
    DataNotSpace(t[0]);
    DataNotSpace(t[42]);
    StripTight(t);
    NoColon(t);
    var s := Unprefixed(t);
    assert s == if PRIV <= t then t[5..] else t[3..];
    LengthDecoded(s);
    ShortHex(s);
  }

  lemma {:induction false} ShortHex(t: Text)
    ensures FromHex(t).Some? ==> 2 * |FromHex(t).value| <= |t|
  {
    if t != [] {
      if IsHexSpace(t[0]) { ShortHex(t[1..]); }
      else if 2 <= |t| { ShortHex(t[2..]); }
    }
  }

  // ---------- other characters in a seed ----------

  lemma {:induction false} KeptConcat(a: Text, b: Text)
    ensures Kept(a + b) == Kept(a) + Kept(b)
  {
    hide ValueOf;
    if a == [] {
      assert a + b == b;
    } else {
      KeptConcat(a[1..], b);
      KeptFirst(a);
      KeptFirst(a + b);
      hide Kept, KeptOne;
      assert (a + b)[0] == a[0] && (a + b)[1..] == a[1..] + b;
      Reassociate(KeptOne(a[0]), Kept(a[1..]), Kept(b));
    }
  }

  function KeptOne(c: CodePoint): Text { if c == PAD || ValueOf(c).Some? then [c] else [] }

  lemma KeptFirst(t: Text)
    requires t != []
    ensures Kept(t) == KeptOne(t[0]) + Kept(t[1..])
  {
    hide ValueOf;
  }

  lemma Reassociate(a: Text, b: Text, c: Text)
    ensures a + b + c == a + (b + c)
  {}

  lemma {:induction false} KeptAll(t: Text)
    requires forall i | 0 <= i < |t| :: t[i] == PAD || ValueOf(t[i]).Some?
    ensures Kept(t) == t
  {
    if t != [] { KeptAll(t[1..]); }
  }

  /** Hexadecimal digits are data characters, so text with few of these spells few bytes. */
  lemma {:induction false} HexIsKept(t: Text)
    ensures FromHex(t).Some? ==> 2 * |FromHex(t).value| <= |Kept(t)|
  {
    if t != [] && FromHex(t).Some? {
      if IsHexSpace(t[0]) {
        HexIsKept(t[1..]);
      } else {
        HexIsKept(t[2..]);
        HexHasValue(t[0]);
        HexHasValue(t[1]);
        assert t[1..][1..] == t[2..];
      }
    }
  }

  lemma HexHasValue(c: CodePoint)
    ensures HexDigit(c).Some? ==> ValueOf(c).Some?
  {}

  /** A prefix comes off whatever tight text follows it. */
  lemma PrefixTaken(p: Text, body: Text)
    requires Prefix(p) && p != [] && body != [] && !IsSpace(body[|body| - 1])
    ensures Unprefixed(Strip(p + body)) == body
  {
    PrefixTexts();
    var t := p + body;
    assert t[|p|..] == body && t[|t| - 1] == body[|body| - 1];
    StripTight(t);
    assert p <= t && t[0] == p[0];
  }

  /** Foreign ASCII characters in a prefixed base64url seed are skipped, yet counted when the padding is
      worked out: the seed is recovered exactly when the whole length is no multiple of four. */
  lemma ForeignCharacters(p: Text, u: Text, b: Bytes)
    requires Prefix(p) && p != [] && |b| == SEED_SIZE && Ascii(u) && Kept(u) == B64Url(b)
    requires u != [] && !IsSpace(u[|u| - 1])
    ensures LoadSeed(p + u) == Some(b) <==> |u| % 4 != 0
    ensures |u| % 4 == 0 ==> LoadSeed(p + u).None?
  {
    hide Decode, Unprefixed, Strip, FromHex, IsSpace, Pads, Ascii, Kept, Prefix, Encode, Groups, T, UrlChar;
    PrefixTaken(p, u);
    EncodedShape(b);
    var m := Missing(|u|);
    KeptConcat(u, Pads(m));
    PadsKept(m);
    LenientSkips(u + Pads(m));
    AsciiPads(u, m);
    HexIsKept(u);
    PaddingEnds(b, Pads(if m == 0 then 0 else m - 1), false);
    GroupsShape(b);
    if m == 0 {
      assert Groups(b) + Pads(0) == Groups(b);
    } else {
      MorePads(m);
      assert Encode(b) + Pads(m - 1) == Groups(b) + (Pads(1) + Pads(m - 1));
    }
  }

  lemma PadsKept(m: nat)
    ensures Kept(Pads(m)) == Pads(m)
  {
    KeptAll(Pads(m));
  }

  lemma MorePads(m: nat)
    requires 0 < m
    ensures Pads(1) + Pads(m - 1) == Pads(m)
  {}

  lemma AsciiPads(u: Text, m: nat)
    ensures Ascii(u + Pads(m)) == Ascii(u)
  {
    if Ascii(u + Pads(m)) {
      forall i | 0 <= i < |u| ensures u[i] < 0x80 { assert (u + Pads(m))[i] == u[i]; }
    }
  }

  /** Text that is not ASCII spells no seed, in neither encoding. */
  lemma NonAsciiRefused(seed: Text)
    requires !Ascii(Unprefixed(Strip(seed)))
    ensures LoadSeed(seed).None?
  {
    hide Decode, Unprefixed, Strip, FromHex, Pads, Ascii;
    var s := Unprefixed(Strip(seed));
    AsciiPads(s, Missing(|s|));
    HexIsAscii(s);
  }

  lemma {:induction false} HexIsAscii(t: Text)
    ensures FromHex(t).Some? ==> Ascii(t)
  {
    if t != [] && FromHex(t).Some? {
      if IsHexSpace(t[0]) { HexIsAscii(t[1..]); } else { HexIsAscii(t[2..]); }
    }
  }

  lemma {:induction false} HexConcat(a: Text, t: Text)
    requires FromHex(a).Some?
    ensures FromHex(a + t) == if FromHex(t).Some? then Some(FromHex(a).value + FromHex(t).value) else None
    decreases |a|
  {
    hide HexDigit, IsHexSpace;
    if a == [] {
      assert a + t == t;
      assert FromHex(t).Some? ==> [] + FromHex(t).value == FromHex(t).value;
    } else if IsHexSpace(a[0]) {
      assert (a + t)[1..] == a[1..] + t;
      HexConcat(a[1..], t);
    } else {
      assert (a + t)[0] == a[0] && (a + t)[1] == a[1] && (a + t)[2..] == a[2..] + t;
      HexConcat(a[2..], t);
      var x, r := FromHex(a).value[0], FromHex(a[2..]).value;
      assert FromHex(t).Some? ==> [x] + (r + FromHex(t).value) == [x] + r + FromHex(t).value;
    }
  }

  lemma SpaceSkipped(c: CodePoint, t: Text)
    requires c in [0x20, 0x09, 0x0A, 0x0B, 0x0C, 0x0D]
    ensures FromHex([c] + t) == FromHex(t)
  {
    assert ([c] + t)[1..] == t;
  }

  /** Whitespace between the bytes of a hexadecimal text does not matter. */
  lemma HexSpaceSkipped(a: Text, c: CodePoint, t: Text)
    requires FromHex(a).Some? && c in [0x20, 0x09, 0x0A, 0x0B, 0x0C, 0x0D]
    ensures FromHex(a + ([c] + t)) == FromHex(a + t)
  {
    hide FromHex;
    SpaceSkipped(c, t);
    HexConcat(a, t);
    HexConcat(a, [c] + t);
  }

  /** Such seeds exist: the documented bare form does not load all of them. */
  lemma BareSeedRefused()
    ensures var b: Bytes := [0xB2, 0x4F, 0xC0] + seq(29, _ => 0);
      |b| == SEED_SIZE && LoadSeed(B64Url(b)).None?
  {
    var b: Bytes := [0xB2, 0x4F, 0xC0] + seq(29, _ => 0);
    EncodedShape(b);
    EncodedIsData(b);
    assert Groups(b)[..3] == SK;
    assert SK <= B64Url(b);
    MistakenPrefix(B64Url(b));
  }
}
