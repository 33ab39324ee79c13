/** json.loads reads back what either serialisation wrote, whatever follows it. */
module RoundTrip {
  import opened Wrappers
  import opened Text
  import opened Decimal
  import opened Binary64
  import opened Numeral
  import opened Numbers
  import opened NumberLaws
  import opened Json
  import opened JsonParser
  import opened JsonWriter

  // ---------- strings ----------

  lemma HexBack(n: CodePoint, t: Text)
    requires n < 0x1_0000
    requires 4 <= |t| && t[0] == HexChar(n / 0x1000) && t[1] == HexChar(n / 0x100 % 0x10)
    requires t[2] == HexChar(n / 0x10 % 0x10) && t[3] == HexChar(n % 0x10)
    ensures Hex4(t) == Some(n)
  {
    hide HexDigit, HexChar;
    HexDigitBack(n / 0x1000);
    HexDigitBack(n / 0x100 % 0x10);
    HexDigitBack(n / 0x10 % 0x10);
    HexDigitBack(n % 0x10);
    assert n / 0x100 == 0x10 * (n / 0x1000) + n / 0x100 % 0x10;
    assert n / 0x10 == 0x10 * (n / 0x100) + n / 0x10 % 0x10;
    assert n == 0x10 * (n / 0x10) + n % 0x10;
  }

  lemma HexDigitBack(d: nat)
    requires d < 16
    ensures HexDigit(HexChar(d)) == Some(d)
  {}

  lemma HexEscape(n: CodePoint, t: Text)
    requires n < 0x1_0000
    ensures var u := UnicodeEscape(n) + t;
      StartsUnicodeEscape(u) && Hex4(u[2..]) == Some(n) && u[6..] == t
  {
    hide Hex4, HexChar;
    var u := UnicodeEscape(n) + t;
    HexBack(n, u[2..]);
  }

  lemma Halves(c: CodePoint)
    requires 0x1_0000 <= c
    ensures IsHigh(HighHalf(c)) && IsLow(LowHalf(c)) && Pair(HighHalf(c), LowHalf(c)) == c
  {}

  /** An escaped character that is not a high surrogate reads back, whatever follows. */
  lemma CharBack(style: Style, c: CodePoint, t: Text)
    requires style.Jcs? || !IsHigh(c)
    ensures ParseChar(EscapeChar(style, c) + t) == Some((c, t))
  {
    hide Hex4, UnicodeEscape;
    var u := EscapeChar(style, c) + t;
    if ShortEscape(c).Some? {
      assert u[2..] == t;
    } else if c < 0x20 {
      HexEscape(c, t);
    } else if style.Jcs? || c < 0x7F {
      assert u[1..] == t;
    } else if c < 0x1_0000 {
      HexEscape(c, t);
    } else {
      Halves(c);
      var low := UnicodeEscape(LowHalf(c)) + t;
      assert u == UnicodeEscape(HighHalf(c)) + low;
      HexEscape(HighHalf(c), low);
      HexEscape(LowHalf(c), t);
      assert u[8..] == low[2..] && u[12..] == t;
    }
  }

  /** A lone high surrogate joins with a low one after it, and with nothing else. */
  lemma HighBack(style: Style, c: CodePoint, t: Text)
    requires style.Plain? && IsHigh(c)
    requires StartsUnicodeEscape(t) ==> Hex4(t[2..]).Some?
    ensures ParseChar(EscapeChar(style, c) + t) ==
      if StartsUnicodeEscape(t) && IsLow(Hex4(t[2..]).value) then Some((Pair(c, Hex4(t[2..]).value), t[6..]))
      else Some((c, t))
  {
    hide Hex4, UnicodeEscape;
    var u := EscapeChar(style, c) + t;
    HexEscape(c, t);
    assert 2 <= |t| ==> u[8..] == t[2..];
    assert 6 <= |t| ==> u[12..] == t[6..];
    if StartsUnicodeEscape(t) { assert 4 <= |t[2..]| by { HexLength(t[2..]); } }
  }

  lemma HexLength(t: Text)
    requires Hex4(t).Some?
    ensures 4 <= |t|
  {}

  /** What an escaped body looks like to the reader of a preceding high surrogate. */
  lemma EscapeStart(style: Style, s: Text, rest: Text)
    requires style.Plain?
    ensures var t := Escape(style, s) + ([QUOTE] + rest);
      && (StartsUnicodeEscape(t) ==> Hex4(t[2..]).Some?)
      && (StartsUnicodeEscape(t) && IsLow(Hex4(t[2..]).value) <==> s != [] && IsLow(s[0]))
      && (s != [] && IsLow(s[0]) ==> Hex4(t[2..]) == Some(s[0]) && t[6..] == Escape(style, s[1..]) + ([QUOTE] + rest))
  {
    hide Hex4, UnicodeEscape;
    if s != [] {
      var c, tail := s[0], Escape(style, s[1..]) + ([QUOTE] + rest);
      var t := Escape(style, s) + ([QUOTE] + rest);
      assert t == EscapeChar(style, c) + tail;
      if ShortEscape(c).Some? {
        assert t[1] != LETTER_U;
      } else if c < 0x20 || (0x7F <= c < 0x1_0000) {
        HexEscape(c, tail);
      } else if 0x1_0000 <= c {
        Halves(c);
        assert t == UnicodeEscape(HighHalf(c)) + (UnicodeEscape(LowHalf(c)) + tail);
        HexEscape(HighHalf(c), UnicodeEscape(LowHalf(c)) + tail);
      }
    } else {
      assert Escape(style, s) + ([QUOTE] + rest) == [QUOTE] + rest;
    }
  }

  lemma BodyNotQuote(style: Style, s: Text, rest: Text)
    requires s != []
    ensures var t := Escape(style, s) + rest; t != [] && t[0] != QUOTE
  {
    var e := EscapeChar(style, s[0]);
    assert e[0] != QUOTE;
    assert (Escape(style, s) + rest)[0] == e[0];
  }

  /** Escaping is inverted by the reader; the first unescaped quote is the closing one. */
  lemma {:induction false} StringBack(style: Style, s: Text, rest: Text)
    ensures ParseString(Escape(style, s) + ([QUOTE] + rest)) == Some((WireText(style, s), rest))
    decreases |s|
  {
    hide ParseChar, EscapeChar, Hex4;
    var t := Escape(style, s) + ([QUOTE] + rest);
    if s == [] {
      assert t == [QUOTE] + rest;
      assert t[1..] == rest;
    } else {
      BodyNotQuote(style, s, [QUOTE] + rest);
      var tail := Escape(style, s[1..]) + ([QUOTE] + rest);
      assert t == EscapeChar(style, s[0]) + tail;
      if style.Jcs? || !IsHigh(s[0]) {
        CharBack(style, s[0], tail);
        StringBack(style, s[1..], rest);
        assert style.Jcs? ==> [s[0]] + s[1..] == s;
      } else {
        EscapeStart(style, s[1..], rest);
        HighBack(style, s[0], tail);
        if 2 <= |s| && IsLow(s[1]) {
          assert s[1..][1..] == s[2..];
          StringBack(style, s[2..], rest);
        } else {
          StringBack(style, s[1..], rest);
        }
      }
    }
  }

  // ---------- numbers ----------

  lemma NumberStart(t: Text)
    requires ScanNumber(t).Some?
    ensures t != [] && (t[0] == MINUS || IsDigit(t[0]))
    ensures t[0] == MINUS ==> 2 <= |t| && IsDigit(t[1])
  {}

  /** A text that scans as a number is read as that number. */
  lemma LiteralIsNumber(t: Text)
    requires ScanNumber(t).Some?
    ensures ParseLiteral(t) == ParseNumber(t)
  {
    hide ScanNumber;
    NumberStart(t);
    LiteralStarts(t);
  }

  /** The first character decides which of the constants a text can start with. */
  lemma LiteralStarts(t: Text)
    ensures NULL_TEXT <= t ==> t[0] == 0x6E
    ensures TRUE_TEXT <= t ==> t[0] == 0x74
    ensures FALSE_TEXT <= t ==> t[0] == 0x66
    ensures NAN_TEXT <= t ==> t[0] == 0x4E
    ensures INFINITY_TEXT <= t ==> t[0] == 0x49
    ensures MINUS_INFINITY_TEXT <= t ==> t[0] == MINUS && t[1] == 0x49
  {}

  /** Characters that cannot be the first of a literal. */
  predicate LiteralStart(t: Text) {
    t != [] && t[0] != QUOTE && t[0] != OPEN_BRACKET && t[0] != OPEN_BRACE
    && t[0] != CLOSE_BRACKET && t[0] != CLOSE_BRACE && !IsWs(t[0]) && t[0] != BYTE_ORDER_MARK
  }

  lemma IntBack(n: int, rest: Text)
    requires EndsNumber(rest)
    ensures ParseLiteral(StrOfInt(n) + rest) == Some((Int(n), rest)) && LiteralStart(StrOfInt(n) + rest)
  {
    hide ScanNumber;
    var num := Numeral(n < 0, Digits(AbsInt(n)), [], NoExp);
    NumberOfDigits(AbsInt(n));
    assert num.WellFormed() && Spell(num) == StrOfInt(n) by {
      assert num.whole + ([] + []) == num.whole;
    }
    ScanSpelled(num, rest);
    LiteralIsNumber(StrOfInt(n) + rest);
    NumberStart(StrOfInt(n) + rest);
  }

  lemma PlainFloatBack(repr: Repr, x: Double, rest: Text)
    requires ReprLaw(repr) && x.Finite? && EndsNumber(rest)
    ensures ParseLiteral(repr(x) + rest) == Some((Float(x), rest)) && LiteralStart(repr(x) + rest)
  {
    hide ScanNumber, Numeral.Magnitude, Round;
    assert ReprOk(x, repr(x));
    var n := Read(repr(x));
    ScanSpelled(n, rest);
    LiteralIsNumber(repr(x) + rest);
    NumberStart(repr(x) + rest);
  }

  lemma JcsFloatBack(style: Style, x: Double, rest: Text)
    requires style.Jcs? && ReprLaw(style.repr) && x.Finite? && EndsNumber(rest)
    ensures var t := FloatToken(style, x) + rest;
      ParseLiteral(t) == Some((WireFloat(style, x), rest)) && LiteralStart(t)
  {
    hide ScanNumber, NumberValue;
    var n := WireClosure(style.repr, x, rest);
    LiteralIsNumber(FloatToken(style, x) + rest);
    NumberStart(FloatToken(style, x) + rest);
  }

  lemma ConstantBack(c: Text, rest: Text)
    requires c in [NULL_TEXT, TRUE_TEXT, FALSE_TEXT, NAN_TEXT, INFINITY_TEXT, MINUS_INFINITY_TEXT]
    ensures LiteralStart(c + rest)
    ensures ParseLiteral(c + rest) == Some((
        if c == NULL_TEXT then Null else if c == TRUE_TEXT then Bool(true)
        else if c == FALSE_TEXT then Bool(false) else if c == NAN_TEXT then Float(NaN)
        else Float(Infinite(c == MINUS_INFINITY_TEXT)), rest))
  {
    var t := c + rest;
    assert t[|c|..] == rest && c <= t && t[0] == c[0];
    LiteralStarts(t);
  }

  // ---------- values ----------

  predicate IsNumber(v: Value) { v.Int? || v.Float? }

  predicate IsLeaf(v: Value) { v.Null? || v.Bool? || IsNumber(v) }

  lemma LeafBack(style: Style, v: Value, rest: Text)
    requires Writable(style, v) && ReprLaw(style.repr) && IsLeaf(v)
    requires IsNumber(v) ==> EndsNumber(rest)
    ensures ParseLiteral(Write(style, v) + rest) == Some((Wire(style, v), rest))
    ensures LiteralStart(Write(style, v) + rest)
  {
    hide ParseLiteral, WireFloat;
    match v
    case Null => ConstantBack(NULL_TEXT, rest);
    case Bool(b) => ConstantBack(if b then TRUE_TEXT else FALSE_TEXT, rest);
    case Int(n) => IntBack(n, rest);
    case Float(x) =>
      if style.Jcs? {
        JcsFloatBack(style, x, rest);
      } else {
        assert WireFloat(style, x) == Float(x) by { PlainWireFloat(style, x); }
        if x.Finite? { PlainFloatBack(style.repr, x, rest); }
        else if x.NaN? { ConstantBack(NAN_TEXT, rest); }
        else if x.neg { ConstantBack(MINUS_INFINITY_TEXT, rest); }
        else { ConstantBack(INFINITY_TEXT, rest); }
      }
  }

  lemma PlainWireFloat(style: Style, x: Double)
    requires style.Plain?
    ensures WireFloat(style, x) == Float(x)
  {}

  /** No object written merges two keys when read back. */
  predicate WireUnique(style: Style, v: Value) {
    match v
    case Dict(ms) => UniqueKeys(WireMembers(style, ms)) && forall i | 0 <= i < |ms| :: WireUnique(style, ms[i].value)
    case List(xs) => forall i | 0 <= i < |xs| :: WireUnique(style, xs[i])
    case Tuple(xs) => forall i | 0 <= i < |xs| :: WireUnique(style, xs[i])
    case _ => true
  }

  /** Every written value starts with a character that no blank, bracket or brace is. */
  lemma WriteStart(style: Style, v: Value, rest: Text)
    requires Writable(style, v) && ReprLaw(style.repr)
    ensures var t := Write(style, v) + rest;
      t != [] && !IsWs(t[0]) && t[0] != CLOSE_BRACKET && t[0] != CLOSE_BRACE && t[0] != BYTE_ORDER_MARK
  {
    if IsLeaf(v) {
      LeafBack(style, v, []);
      assert Write(style, v) + [] == Write(style, v);
    }
  }

  // ---------- one step of the reader ----------

  lemma ReadList(unique: bool, t: Text, xs: seq<Value>, rest: Text)
    requires t != [] && t[0] == OPEN_BRACKET
    requires t[1..] != [] && !IsWs(t[1..][0]) && t[1..][0] != CLOSE_BRACKET
    requires ParseItems(unique, t[1..]) == Some((xs, rest))
    ensures ParseValue(unique, t) == Some((List(xs), rest))
  {
    hide ParseItems, ParseMembers, ParseString, ParseLiteral;
  }

  lemma ReadDict(unique: bool, t: Text, ms: seq<Member>, rest: Text)
    requires t != [] && t[0] == OPEN_BRACE
    requires t[1..] != [] && !IsWs(t[1..][0]) && t[1..][0] != CLOSE_BRACE
    requires ParseMembers(unique, t[1..]) == Some((ms, rest)) && (unique ==> UniqueKeys(ms))
    ensures ParseValue(unique, t) == Some((Dict(FromPairs(ms)), rest))
  {
    hide ParseItems, ParseMembers, ParseString, ParseLiteral, FromPairs, UniqueKeys;
  }

  lemma ReadEmpty(unique: bool, rest: Text)
    ensures ParseValue(unique, [OPEN_BRACKET, CLOSE_BRACKET] + rest) == Some((List([]), rest))
    ensures ParseValue(unique, [OPEN_BRACE, CLOSE_BRACE] + rest) == Some((Dict([]), rest))
  {
    hide ParseItems, ParseMembers, ParseString, ParseLiteral, FromPairs, UniqueKeys;
    var a, b := [OPEN_BRACKET, CLOSE_BRACKET] + rest, [OPEN_BRACE, CLOSE_BRACE] + rest;
    assert a[1..] == [CLOSE_BRACKET] + rest && a[1..][1..] == rest;
    assert b[1..] == [CLOSE_BRACE] + rest && b[1..][1..] == rest;
  }

  lemma ReadLastItem(unique: bool, t: Text, v: Value, rest: Text)
    requires ParseValue(unique, t) == Some((v, [CLOSE_BRACKET] + rest))
    ensures ParseItems(unique, t) == Some(([v], rest))
  {
    hide ParseValue;
    assert ([CLOSE_BRACKET] + rest)[1..] == rest;
  }

  lemma ReadItem(unique: bool, t: Text, v: Value, more: Text, xs: seq<Value>, rest: Text)
    requires ParseValue(unique, t) == Some((v, [COMMA] + more))
    requires more != [] && !IsWs(more[0]) && ParseItems(unique, more) == Some((xs, rest))
    ensures ParseItems(unique, t) == Some(([v] + xs, rest))
  {
    hide ParseValue;
    assert ([COMMA] + more)[1..] == more;
  }

  lemma ReadLastMember(unique: bool, t: Text, m: Member, rest: Text)
    requires ParseMember(unique, t) == Some((m, [CLOSE_BRACE] + rest))
    ensures ParseMembers(unique, t) == Some(([m], rest))
  {
    hide ParseMember;
    assert ([CLOSE_BRACE] + rest)[1..] == rest;
  }

  lemma ReadNextMember(unique: bool, t: Text, m: Member, more: Text, ms: seq<Member>, rest: Text)
    requires ParseMember(unique, t) == Some((m, [COMMA] + more))
    requires more != [] && !IsWs(more[0]) && ParseMembers(unique, more) == Some((ms, rest))
    ensures ParseMembers(unique, t) == Some(([m] + ms, rest))
  {
    hide ParseMember;
    assert ([COMMA] + more)[1..] == more;
  }

  // ---------- reading back ----------

  /** Reading a written value gives its wire form and stops where the value ends. */
  lemma {:induction false} ValueBack(unique: bool, style: Style, v: Value, rest: Text)
    requires Writable(style, v) && ReprLaw(style.repr)
    requires IsNumber(v) ==> EndsNumber(rest)
    requires unique ==> WireUnique(style, v)
    ensures ParseValue(unique, Write(style, v) + rest) == Some((Wire(style, v), rest))
    decreases v, 0
  {
    hide ParseValue, ParseItems, ParseMembers, ParseString, ParseLiteral, Escape, WriteMembers, WriteItems;
    hide WireItems, WireMembers, FromPairs, ReprLaw;
    if IsLeaf(v) {
      LeafBack(style, v, rest);
      ReadLeaf(unique, Write(style, v) + rest);
    } else if v.Str? {
      ReadText(unique, style, v.s, rest);
    } else if v.Dict? {
      if v.members == [] {
        ReadEmpty(unique, rest);
        NoMembers(style);
      } else {
        var body := WriteMembers(style, v.members);
        Opened(OPEN_BRACE, body, rest);
        MembersStart(style, v.members, rest);
        MembersBack(unique, style, v.members, rest);
        ReadDict(unique, [OPEN_BRACE] + body + rest, WireMembers(style, v.members), rest);
      }
    } else if v.items == [] {
      ReadEmpty(unique, rest);
      NoItems(style);
    } else {
      var body := WriteItems(style, v.items);
      Opened(OPEN_BRACKET, body, rest);
      ItemsStart(style, v.items, rest);
      ItemsBack(unique, style, v.items, rest);
      ReadList(unique, [OPEN_BRACKET] + body + rest, WireItems(style, v.items), rest);
    }
  }

  lemma NoItems(style: Style)
    ensures WireItems(style, []) == []
  {}

  lemma NoMembers(style: Style)
    ensures FromPairs(WireMembers(style, [])) == []
  {}

  lemma ReadLeaf(unique: bool, t: Text)
    requires LiteralStart(t)
    ensures ParseValue(unique, t) == ParseLiteral(t)
  {
    hide ParseItems, ParseMembers, ParseString, ParseLiteral;
  }

  lemma ReadText(unique: bool, style: Style, s: Text, rest: Text)
    ensures ParseValue(unique, Quoted(style, s) + rest) == Some((Str(WireText(style, s)), rest))
  {
    hide ParseItems, ParseMembers, ParseString, ParseLiteral, Escape;
    StringBack(style, s, rest);
    assert (Quoted(style, s) + rest)[1..] == Escape(style, s) + ([QUOTE] + rest);
  }

  lemma Opened(open: CodePoint, body: Text, rest: Text)
    requires body != []
    ensures var t := [open] + body + rest;
      t[0] == open && t[1..] == body + rest && t[1..][0] == body[0] && (|body| == 1 ==> t[1..][1..] == rest)
    ensures [open] + body == [open, body[0]] + body[1..]
  {}

  lemma ItemsStart(style: Style, xs: seq<Value>, rest: Text)
    requires xs != [] && Writable(style, xs[0]) && ReprLaw(style.repr)
    ensures var t := WriteItems(style, xs) + rest; t != [] && !IsWs(t[0]) && t[0] != CLOSE_BRACKET
  {
    hide Write;
    WriteStart(style, xs[0], []);
    assert Write(style, xs[0]) + [] == Write(style, xs[0]);
  }

  lemma MembersStart(style: Style, ms: seq<Member>, rest: Text)
    requires ms != []
    ensures var t := WriteMembers(style, ms) + rest; t != [] && t[0] == QUOTE
  {}

  lemma {:induction false} ItemsBack(unique: bool, style: Style, xs: seq<Value>, rest: Text)
    requires xs != [] && ReprLaw(style.repr)
    requires forall i | 0 <= i < |xs| :: Writable(style, xs[i]) && (unique ==> WireUnique(style, xs[i]))
    ensures ParseItems(unique, WriteItems(style, xs) + rest) == Some((WireItems(style, xs), rest))
    decreases xs, 1
  {
    hide ParseValue, ParseItems, Write, Wire, Writable, WireUnique, ReprLaw, WriteItems, WireItems;
    var t := WriteItems(style, xs) + rest;
    var v := Wire(style, xs[0]);
    if |xs| == 1 {
      LastItem(style, xs, rest);
      ValueBack(unique, style, xs[0], [CLOSE_BRACKET] + rest);
      ReadLastItem(unique, t, v, rest);
    } else {
      var more := WriteItems(style, xs[1..]) + rest;
      NextItem(style, xs, rest);
      ValueBack(unique, style, xs[0], [COMMA] + more);
      ItemsStart(style, xs[1..], rest);
      ItemsBack(unique, style, xs[1..], rest);
      ReadItem(unique, t, v, more, WireItems(style, xs[1..]), rest);
    }
  }

  lemma LastItem(style: Style, xs: seq<Value>, rest: Text)
    requires |xs| == 1
    ensures WriteItems(style, xs) + rest == Write(style, xs[0]) + ([CLOSE_BRACKET] + rest)
    ensures WireItems(style, xs) == [Wire(style, xs[0])]
  {
    hide Write, Wire;
  }

  lemma NextItem(style: Style, xs: seq<Value>, rest: Text)
    requires |xs| > 1
    ensures WriteItems(style, xs) + rest == Write(style, xs[0]) + ([COMMA] + (WriteItems(style, xs[1..]) + rest))
    ensures WireItems(style, xs) == [Wire(style, xs[0])] + WireItems(style, xs[1..])
  {
    hide Write, Wire;
  }

  lemma {:induction false} MemberBack(unique: bool, style: Style, m: Member, rest: Text)
    requires Writable(style, m.value) && ReprLaw(style.repr) && EndsNumber(rest)
    requires unique ==> WireUnique(style, m.value)
    ensures ParseMember(unique, WriteMember(style, m) + rest)
         == Some((Member(WireText(style, m.key), Wire(style, m.value)), rest))
    decreases m, 1
  {
    hide ParseValue, Write, Wire, ParseString, Escape;
    var t := WriteMember(style, m) + rest;
    var t2 := [COLON] + (Write(style, m.value) + rest);
    assert t[1..] == Escape(style, m.key) + ([QUOTE] + t2);
    StringBack(style, m.key, t2);
    assert t2[1..] == Write(style, m.value) + rest;
    WriteStart(style, m.value, rest);
    ValueBack(unique, style, m.value, rest);
  }

  lemma {:induction false} MembersBack(unique: bool, style: Style, ms: seq<Member>, rest: Text)
    requires ms != [] && ReprLaw(style.repr)
    requires forall i | 0 <= i < |ms| :: Writable(style, ms[i].value) && (unique ==> WireUnique(style, ms[i].value))
    ensures ParseMembers(unique, WriteMembers(style, ms) + rest) == Some((WireMembers(style, ms), rest))
    decreases ms, 1
  {
    hide ParseMember, ParseMembers, WriteMember, WriteMembers, Writable, WireUnique, ReprLaw, WireMembers, Wire, WireText;
    var t := WriteMembers(style, ms) + rest;
    var m := Member(WireText(style, ms[0].key), Wire(style, ms[0].value));
    if |ms| == 1 {
      LastMember(style, ms, rest);
      MemberBack(unique, style, ms[0], [CLOSE_BRACE] + rest);
      ReadLastMember(unique, t, m, rest);
    } else {
      var more := WriteMembers(style, ms[1..]) + rest;
      NextMember(style, ms, rest);
      MemberBack(unique, style, ms[0], [COMMA] + more);
      MembersStart(style, ms[1..], rest);
      MembersBack(unique, style, ms[1..], rest);
      ReadNextMember(unique, t, m, more, WireMembers(style, ms[1..]), rest);
    }
  }

  lemma LastMember(style: Style, ms: seq<Member>, rest: Text)
    requires |ms| == 1
    ensures WriteMembers(style, ms) + rest == WriteMember(style, ms[0]) + ([CLOSE_BRACE] + rest)
    ensures WireMembers(style, ms) == [Member(WireText(style, ms[0].key), Wire(style, ms[0].value))]
  {
    hide WriteMember, Wire, WireText;
  }

  lemma NextMember(style: Style, ms: seq<Member>, rest: Text)
    requires |ms| > 1
    ensures WriteMembers(style, ms) + rest == WriteMember(style, ms[0]) + ([COMMA] + (WriteMembers(style, ms[1..]) + rest))
    ensures WireMembers(style, ms) == [Member(WireText(style, ms[0].key), Wire(style, ms[0].value))] + WireMembers(style, ms[1..])
  {
    hide WriteMember, Wire, WireText;
  }

  /** json.loads of a whole serialised value. */
  lemma LoadsBack(unique: bool, style: Style, v: Value)
    requires Writable(style, v) && ReprLaw(style.repr)
    requires unique ==> WireUnique(style, v)
    ensures Loads(unique, Write(style, v)) == Some(Wire(style, v))
  {
    hide Write, Wire, ParseValue;
    var t := Write(style, v);
    assert t + [] == t;
    WriteStart(style, v, []);
    ValueBack(unique, style, v, []);
  }
}
