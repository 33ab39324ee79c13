/** json.loads against the grammar: it accepts exactly what a tree spells and returns what the tree
    means. */
module Reader {
  import opened Wrappers
  import opened Text
  import opened Decimal
  import opened Numeral
  import opened Json
  import opened JsonParser
  import opened RoundTrip
  import opened Prefixes
  import opened Grammar

  // ---------- every tree is read: strings ----------

  lemma NibbleReads(n: Nibble)
    ensures HexDigit(n.Char()) == Some(n.d)
  {
    var d := n.d;
    assert d == 0 || d == 1 || d == 2 || d == 3 || d == 4 || d == 5 || d == 6 || d == 7
      || d == 8 || d == 9 || d == 10 || d == 11 || d == 12 || d == 13 || d == 14 || d == 15;
  }

  lemma ShortReads(s: Spelling, t: Text)
    requires s.Short?
    ensures ParseChar(s.Spelled() + t) == Some((s.Value(), t))
  {
    var u, i := s.Spelled() + t, s.i;
    assert i == 0 || i == 1 || i == 2 || i == 3 || i == 4 || i == 5 || i == 6 || i == 7;
    assert u[0] == BACKSLASH && u[2..] == t;
    assert Unescape(u[1]) == Some(s.Value()) && u[1] != LETTER_U;
  }

  lemma UnitReads(s: Spelling, t: Text)
    requires s.Unit?
    ensures var u := s.Spelled() + t;
      StartsUnicodeEscape(u) && Hex4(u[2..]) == Some(s.Value()) && u[6..] == t
  {
    hide HexDigit, Nibble.Char;
    NibbleReads(s.a);
    NibbleReads(s.b);
    NibbleReads(s.c3);
    NibbleReads(s.c4);
    var u := s.Spelled() + t;
    assert u[0] == BACKSLASH && u[1] == LETTER_U;
    assert u[2] == s.a.Char() && u[3] == s.b.Char() && u[4] == s.c3.Char() && u[5] == s.c4.Char();
  }

  /** How a spelled body can start, with the closing quote after it. */
  lemma BodyStart(cs: seq<Spelling>, rest: Text)
    ensures var t := CharsText(cs) + ([QUOTE] + rest);
      && (cs != [] ==> t[0] != QUOTE)
      && (StartsUnicodeEscape(t) <==> cs != [] && cs[0].Unit?)
      && (cs != [] && cs[0].Unit? ==>
            Hex4(t[2..]) == Some(cs[0].Value()) && t[6..] == CharsText(cs[1..]) + ([QUOTE] + rest))
  {
    hide Hex4, Nibble.Char;
    var t := CharsText(cs) + ([QUOTE] + rest);
    if cs == [] {
      assert t == [QUOTE] + rest;
    } else {
      var tail := CharsText(cs[1..]) + ([QUOTE] + rest);
      assert t == cs[0].Spelled() + tail;
      if cs[0].Unit? { UnitReads(cs[0], tail); }
      if cs[0].Short? { ShortIsNoUnit(cs[0]); }
    }
  }

  lemma ShortIsNoUnit(s: Spelling)
    requires s.Short?
    ensures s.Spelled()[0] == BACKSLASH && s.Spelled()[1] != LETTER_U && |s.Spelled()| == 2
  {
    var i := s.i;
    assert i == 0 || i == 1 || i == 2 || i == 3 || i == 4 || i == 5 || i == 6 || i == 7;
  }

  lemma {:induction false} StringReads(cs: seq<Spelling>, rest: Text)
    ensures ParseString(CharsText(cs) + ([QUOTE] + rest)) == Some((CharsMeaning(cs), rest))
    decreases |cs|
  {
    hide ParseChar, Hex4, Nibble.Char, Spelling.Spelled;
    var t := CharsText(cs) + ([QUOTE] + rest);
    BodyStart(cs, rest);
    if cs == [] {
      assert t == [QUOTE] + rest && t[1..] == rest;
    } else if 2 <= |cs| && cs[0].High() && cs[1].Low() {
      PairReads(cs, rest);
      assert cs[1..][1..] == cs[2..];
      StringReads(cs[2..], rest);
    } else {
      OneReads(cs, rest);
      StringReads(cs[1..], rest);
    }
  }

  lemma PairReads(cs: seq<Spelling>, rest: Text)
    requires 2 <= |cs| && cs[0].High() && cs[1].Low()
    ensures ParseChar(CharsText(cs) + ([QUOTE] + rest))
         == Some((0x1_0000 + (cs[0].Value() - 0xD800) * 0x400 + (cs[1].Value() - 0xDC00), CharsText(cs[2..]) + ([QUOTE] + rest)))
  {
    hide Hex4, Nibble.Char, Spelling.Spelled;
    var t := CharsText(cs) + ([QUOTE] + rest);
    BodyStart(cs, rest);
    BodyStart(cs[1..], rest);
    assert cs[1..][1..] == cs[2..];
    assert t[8..] == t[6..][2..] && t[12..] == t[6..][6..];
  }

  lemma OneReads(cs: seq<Spelling>, rest: Text)
    requires cs != [] && !(2 <= |cs| && cs[0].High() && cs[1].Low())
    ensures ParseChar(CharsText(cs) + ([QUOTE] + rest)) == Some((cs[0].Value(), CharsText(cs[1..]) + ([QUOTE] + rest)))
  {
    hide Hex4, Nibble.Char, Spelling.Spelled, Spelling.Value, ParseChar;
    var t, tail := CharsText(cs) + ([QUOTE] + rest), CharsText(cs[1..]) + ([QUOTE] + rest);
    assert t == cs[0].Spelled() + tail;
    if cs[0].Unit? {
      BodyStart(cs[1..], rest);
      UnitAlone(cs[0], tail);
    } else if cs[0].Short? {
      ShortReads(cs[0], tail);
    } else {
      RawReads(cs[0], tail);
    }
  }

  /** A code unit escape that no low surrogate escape completes to a pair. */
  lemma UnitAlone(s: Spelling, t: Text)
    requires s.Unit?
    requires s.High() && StartsUnicodeEscape(t) ==> Hex4(t[2..]).Some? && !IsLow(Hex4(t[2..]).value)
    ensures ParseChar(s.Spelled() + t) == Some((s.Value(), t))
  {
    hide Hex4, Nibble.Char, Spelling.Spelled, Spelling.Value;
    var u := s.Spelled() + t;
    UnitReads(s, t);
    if StartsUnicodeEscape(t) { assert u[8..] == u[6..][2..]; }
  }

  lemma RawReads(s: Spelling, t: Text)
    requires s.Raw?
    ensures ParseChar(s.Spelled() + t) == Some((s.Value(), t))
  {
    assert (s.Spelled() + t)[1..] == t;
  }

  // ---------- every tree is read: numbers and constants ----------

  lemma Marks()
    ensures T("E") == [UPPER_E] && T("e") == [LOWER_E] && T("-") == [MINUS] && T("+") == [PLUS] && T(".") == [DOT]
  {}

  lemma ExponentReads(e: Exponent, upper: bool, plus: bool, rest: Text)
    requires e.WellFormed() && EndsNumber(rest)
    ensures ScanExp(ExponentText(e, upper, plus) + rest) == (e, rest)
  {
    hide DigitRun, ScanExp, EndsNumber, Exponent.WellFormed;
    var t := ExponentText(e, upper, plus) + rest;
    if e.NoExp? {
      assert t == rest;
      NoExponent(rest);
    } else {
      ExponentSplits(e, upper, plus, rest);
      if e.neg || plus { SignedExponent(t, e, rest); } else { UnsignedExponent(t, e, rest); }
    }
  }

  lemma ExponentSplits(e: Exponent, upper: bool, plus: bool, rest: Text)
    requires e.ExpPart?
    ensures var t := ExponentText(e, upper, plus) + rest;
      && t != [] && (t[0] == LOWER_E || t[0] == UPPER_E)
      && (e.neg || plus ==> t == [t[0], if e.neg then MINUS else PLUS] + (e.digits + rest))
      && (!e.neg && !plus ==> t == [t[0]] + (e.digits + rest))
  {
    hide T;
    Marks();
    var l := if upper then UPPER_E else LOWER_E;
    if e.neg || plus {
      var m := if e.neg then MINUS else PLUS;
      assert ExponentText(e, upper, plus) == [l] + ([m] + e.digits);
      assert [l] + ([m] + e.digits) + rest == [l, m] + (e.digits + rest);
    } else {
      assert ExponentText(e, upper, plus) == [l] + ([] + e.digits);
      assert [l] + ([] + e.digits) + rest == [l] + (e.digits + rest);
    }
  }

  lemma NoExponent(rest: Text)
    requires EndsNumber(rest)
    ensures ScanExp(rest) == (NoExp, rest)
  {}

  lemma SignedExponent(t: Text, e: Exponent, rest: Text)
    requires e.ExpPart? && e.WellFormed() && EndsNumber(rest)
    requires 2 <= |t| && (t[0] == LOWER_E || t[0] == UPPER_E)
    requires t == [t[0], if e.neg then MINUS else PLUS] + (e.digits + rest)
    ensures ScanExp(t) == (e, rest)
  {
    hide DigitRun;
    DigitRunOf(e.digits, rest);
    assert t[2..] == e.digits + rest;
  }

  lemma UnsignedExponent(t: Text, e: Exponent, rest: Text)
    requires e.ExpPart? && !e.neg && e.WellFormed() && EndsNumber(rest)
    requires t != [] && (t[0] == LOWER_E || t[0] == UPPER_E) && t == [t[0]] + (e.digits + rest)
    ensures ScanExp(t) == (e, rest)
  {
    hide DigitRun;
    DigitRunOf(e.digits, rest);
    assert t[1..] == e.digits + rest && t[1] == e.digits[0];
  }

  lemma NumericReads(n: WellFormed, upper: bool, plus: bool, rest: Text)
    requires EndsNumber(rest)
    ensures ScanNumber(NumericText(n, upper, plus) + rest) == Some((n, rest))
  {
    hide ScanExp, ScanFrac, ScanWhole, ExponentText;
    var t2 := ExponentText(n.exp, upper, plus) + rest;
    var t1 := SpellFrac(n.frac) + t2;
    var t0 := n.whole + t1;
    NumericSplits(n, upper, plus, rest);
    hide NumericText;
    ExponentReads(n.exp, upper, plus, rest);
    ExponentStarts(n.exp, upper, plus, rest);
    ScanSpelledWhole(n.whole, t1);
    ScanSpelledFrac(n.frac, t2);
    ScanParts(n, t0, t1, t2, rest);
  }

  lemma NumericSplits(n: WellFormed, upper: bool, plus: bool, rest: Text)
    ensures NumericText(n, upper, plus) + rest
         == Sign(n.neg) + (n.whole + (SpellFrac(n.frac) + (ExponentText(n.exp, upper, plus) + rest)))
  {
    hide ExponentText;
    assert T(".") == [DOT] && T("-") == [MINUS];
    assert NumericText(n, upper, plus)
        == Sign(n.neg) + (n.whole + (SpellFrac(n.frac) + ExponentText(n.exp, upper, plus)));
  }

  lemma ExponentStarts(e: Exponent, upper: bool, plus: bool, rest: Text)
    requires EndsNumber(rest)
    ensures var t := ExponentText(e, upper, plus) + rest; t == [] || (!IsDigit(t[0]) && t[0] != DOT)
  {}

  lemma ConstantTexts()
    ensures T("null") == NULL_TEXT && T("true") == TRUE_TEXT && T("false") == FALSE_TEXT
    ensures T("NaN") == NAN_TEXT && T("Infinity") == INFINITY_TEXT && T("-Infinity") == MINUS_INFINITY_TEXT
  {}

  lemma ConstantReads(v: Literal, rest: Text)
    ensures ParseLiteral(ConstantText(v) + rest) == Some((v, rest)) && LiteralStart(ConstantText(v) + rest)
  {
    hide ParseLiteral, LiteralStart;
    ConstantTexts();
    ConstantBack(ConstantText(v), rest);
    ConstantsApart();
  }

  lemma ConstantsApart()
    ensures NULL_TEXT !in [TRUE_TEXT, FALSE_TEXT, NAN_TEXT, INFINITY_TEXT, MINUS_INFINITY_TEXT]
    ensures TRUE_TEXT !in [FALSE_TEXT, NAN_TEXT, INFINITY_TEXT, MINUS_INFINITY_TEXT]
    ensures FALSE_TEXT !in [NAN_TEXT, INFINITY_TEXT, MINUS_INFINITY_TEXT]
    ensures NAN_TEXT !in [INFINITY_TEXT, MINUS_INFINITY_TEXT] && INFINITY_TEXT != MINUS_INFINITY_TEXT
  {
    assert NULL_TEXT[0] == 0x6E && TRUE_TEXT[0] == 0x74 && FALSE_TEXT[0] == 0x66;
    assert NAN_TEXT[0] == 0x4E && INFINITY_TEXT[0] == 0x49 && MINUS_INFINITY_TEXT[0] == 0x2D;
  }

  /** The two readings of a number literal agree. */
  lemma NumericMeans(n: WellFormed)
    ensures NumberValue(n) == NumericMeaning(n)
  {}

  lemma LeafReads(d: Doc, rest: Text)
    requires d.Constant? || d.Numeric?
    requires d.Numeric? ==> EndsNumber(rest)
    ensures ParseLiteral(DocText(d) + rest) == Some((Meaning(d), rest)) && LiteralStart(DocText(d) + rest)
  {
    hide ParseLiteral, LiteralStart, ScanNumber, NumericText, ConstantText, NumberValue, NumericMeaning;
    match d
    case Constant(v) => ConstantReads(v, rest);
    case Numeric(n, upper, plus) =>
      NumericReads(n, upper, plus, rest);
      NumericMeans(n);
      LiteralIsNumber(DocText(d) + rest);
      NumberStart(DocText(d) + rest);
      NumberIsLiteral(DocText(d) + rest);
  }

  lemma NumberIsLiteral(t: Text)
    requires t != [] && (t[0] == MINUS || IsDigit(t[0]))
    ensures LiteralStart(t)
  {}

  // ---------- every tree is read: arrays and objects ----------

  lemma {:induction false} SkipBlanks(gap: Blanks, t: Text)
    requires t == [] || !IsWs(t[0])
    ensures SkipWs(gap + t) == t
  {
    if gap == [] {
      assert gap + t == t;
    } else {
      assert (gap + t)[1..] == gap[1..] + t;
      SkipBlanks(gap[1..], t);
    }
  }

  /** What comes after a value, blanks first, ends a number. */
  lemma GapEnds(gap: Blanks, t: Text)
    requires t != [] && (t[0] == COMMA || t[0] == CLOSE_BRACKET || t[0] == CLOSE_BRACE)
    ensures EndsNumber(gap + t)
  {
    if gap != [] { assert gap[0] in [0x20, 0x09, 0x0A, 0x0D]; }
  }

  /** A value starts with no blank, and with neither closing bracket. */
  lemma DocStart(d: Doc, rest: Text)
    ensures var t := DocText(d) + rest; t != [] && !IsWs(t[0]) && t[0] != CLOSE_BRACKET && t[0] != CLOSE_BRACE
    ensures (DocText(d) + rest)[0] != BYTE_ORDER_MARK
  {
    if d.Constant? || d.Numeric? {
      hide DocText;
      LeafReads(d, []);
      assert DocText(d) + [] == DocText(d);
    }
  }

  lemma {:induction false} DocReads(unique: bool, d: Doc, rest: Text)
    requires d.Numeric? ==> EndsNumber(rest)
    ensures ParseValue(unique, DocText(d) + rest)
         == if unique && !KeysDistinct(d) then None else Some((Meaning(d), rest))
    decreases d, 0
  {
    hide ParseLiteral, ParseString, ParseItems, ParseMembers, UniqueKeys, FromPairs, EndsNumber, LiteralStart, CharsText;
    hide ItemsText, EntriesText, ItemsMeaning, EntriesMeaning, CharsMeaning, NumericText, ConstantText, IsWs;
    var t := DocText(d) + rest;
    match d
    case Constant(_) => LeafIsRead(unique, d, rest);
    case Numeric(_, _, _) => LeafIsRead(unique, d, rest);
    case Chars(cs) =>
      assert t[1..] == CharsText(cs) + ([QUOTE] + rest);
      StringReads(cs, rest);
    case Array(gap, items) =>
      assert t[1..] == gap + (ItemsText(items) + rest);
      ItemsStart(items, rest);
      SkipBlanks(gap, ItemsText(items) + rest);
      if items == [] { NoItems(rest); } else { ItemsRead(unique, items, rest); }
    case Object(gap, es) =>
      assert t[1..] == gap + (EntriesText(es) + rest);
      EntriesStart(es, rest);
      SkipBlanks(gap, EntriesText(es) + rest);
      if es == [] { NoEntries(rest); } else { EntriesRead(unique, es, rest); }
  }

  lemma LeafIsRead(unique: bool, d: Doc, rest: Text)
    requires d.Constant? || d.Numeric?
    requires d.Numeric? ==> EndsNumber(rest)
    ensures ParseValue(unique, DocText(d) + rest) == Some((Meaning(d), rest)) && KeysDistinct(d)
  {
    hide ParseLiteral, ParseValue, DocText, Meaning, LiteralStart;
    LeafReads(d, rest);
    ReadLeaf(unique, DocText(d) + rest);
  }

  lemma ItemsStart(items: seq<Item>, rest: Text)
    ensures var t := ItemsText(items) + rest; t != [] && !IsWs(t[0]) && (t[0] == CLOSE_BRACKET <==> items == [])
  {
    hide DocText, ItemsTail;
    if items != [] { DocStart(items[0].d, items[0].after + ItemsTail(items) + rest); }
  }

  lemma EntriesStart(es: seq<Entry>, rest: Text)
    ensures var t := EntriesText(es) + rest; t != [] && !IsWs(t[0]) && (t[0] == CLOSE_BRACE <==> es == [])
  {
    hide DocText, EntriesTail, CharsText;
  }

  lemma NoItems(rest: Text)
    ensures (ItemsText([]) + rest)[1..] == rest && ItemsMeaning([]) == [] && ItemsDistinct([])
  {}

  lemma NoEntries(rest: Text)
    ensures (EntriesText([]) + rest)[1..] == rest
    ensures EntriesDistinct([]) && UniqueKeys(EntriesMeaning([])) && FromPairs(EntriesMeaning([])) == []
  {}

  lemma {:induction false} ItemsRead(unique: bool, items: seq<Item>, rest: Text)
    requires items != []
    ensures ParseItems(unique, ItemsText(items) + rest)
         == if unique && !ItemsDistinct(items) then None else Some((ItemsMeaning(items), rest))
    decreases items, 1
  {
    hide ParseValue, DocText, Meaning, EndsNumber, IsWs, SkipWs;
    var d, tail := items[0].d, ItemsTail(items) + rest;
    assert ItemsText(items) + rest == DocText(d) + (items[0].after + tail);
    GapEnds(items[0].after, tail);
    DocReads(unique, d, items[0].after + tail);
    TailIsNoBlank(tail[0]);
    SkipBlanks(items[0].after, tail);
    if |items| == 1 {
      assert tail[0] == CLOSE_BRACKET && tail[1..] == rest;
      OneItem(items);
    } else {
      assert tail[1..] == items[0].next + (ItemsText(items[1..]) + rest);
      ItemsStart(items[1..], rest);
      SkipBlanks(items[0].next, ItemsText(items[1..]) + rest);
      ItemsRead(unique, items[1..], rest);
    }
  }

  lemma OneItem(items: seq<Item>)
    requires |items| == 1
    ensures ItemsMeaning(items) == [Meaning(items[0].d)] && ItemsDistinct(items) == KeysDistinct(items[0].d)
  {
    assert items[1..] == [];
  }

  lemma OneEntry(es: seq<Entry>)
    requires |es| == 1
    ensures EntriesMeaning(es) == [EntryMeaning(es[0])] && EntriesDistinct(es) == KeysDistinct(es[0].item.d)
  {
    assert es[1..] == [];
  }

  lemma TailIsNoBlank(c: CodePoint)
    ensures c == COMMA || c == COLON || c == CLOSE_BRACKET || c == CLOSE_BRACE ==> !IsWs(c)
  {}

  lemma {:induction false} EntryRead(unique: bool, e: Entry, rest: Text)
    requires EndsNumber(rest)
    ensures ParseMember(unique, EntryText(e) + rest)
         == if unique && !KeysDistinct(e.item.d) then None else Some((EntryMeaning(e), rest))
    decreases e, 0
  {
    hide ParseValue, ParseString, DocText, Meaning, EndsNumber, IsWs, SkipWs, CharsText, CharsMeaning;
    var t, d := EntryText(e) + rest, e.item.d;
    var t3 := DocText(d) + rest;
    var t2 := [COLON] + (e.afterColon + t3);
    assert t[1..] == CharsText(e.key) + ([QUOTE] + (e.beforeColon + t2));
    StringReads(e.key, e.beforeColon + t2);
    TailIsNoBlank(COLON);
    SkipBlanks(e.beforeColon, t2);
    assert t2[1..] == e.afterColon + t3;
    DocStart(d, rest);
    SkipBlanks(e.afterColon, t3);
    DocReads(unique, d, rest);
  }

  lemma {:induction false} EntriesRead(unique: bool, es: seq<Entry>, rest: Text)
    requires es != []
    ensures ParseMembers(unique, EntriesText(es) + rest)
         == if unique && !EntriesDistinct(es) then None else Some((EntriesMeaning(es), rest))
    decreases es, 1
  {
    hide ParseMember, EntryText, EntryMeaning, EndsNumber, IsWs, SkipWs;
    var e, tail := es[0], EntriesTail(es) + rest;
    assert EntriesText(es) + rest == EntryText(e) + (e.item.after + tail);
    GapEnds(e.item.after, tail);
    EntryRead(unique, e, e.item.after + tail);
    TailIsNoBlank(tail[0]);
    SkipBlanks(e.item.after, tail);
    if |es| == 1 {
      assert tail[0] == CLOSE_BRACE && tail[1..] == rest;
      OneEntry(es);
    } else {
      assert tail[1..] == e.item.next + (EntriesText(es[1..]) + rest);
      EntriesStart(es[1..], rest);
      SkipBlanks(e.item.next, EntriesText(es[1..]) + rest);
      EntriesRead(unique, es[1..], rest);
    }
  }

  // ---------- what is read is spelled by a tree: strings ----------

  lemma NibbleFound(c: CodePoint) returns (n: Nibble)
    requires HexDigit(c).Some?
    ensures n.Char() == c && Some(n.d) == HexDigit(c)
  {
    var d := HexDigit(c).value;
    n := Nibble(d, 0x41 <= c <= 0x46);
    assert d == 0 || d == 1 || d == 2 || d == 3 || d == 4 || d == 5 || d == 6 || d == 7
      || d == 8 || d == 9 || d == 10 || d == 11 || d == 12 || d == 13 || d == 14 || d == 15;
  }

  lemma UnitFound(t: Text) returns (s: Spelling)
    requires StartsUnicodeEscape(t) && Hex4(t[2..]).Some?
    ensures s.Unit? && Hex4(t[2..]) == Some(s.Value()) && t == s.Spelled() + t[6..]
  {
    hide HexDigit, Nibble.Char;
    HexLength(t[2..]);
    var a := NibbleFound(t[2]);
    var b := NibbleFound(t[3]);
    var c := NibbleFound(t[4]);
    var d := NibbleFound(t[5]);
    s := Unit(a, b, c, d);
    assert s.Spelled() == t[..6];
  }

  lemma ShortFound(t: Text) returns (s: Spelling)
    requires 2 <= |t| && t[0] == BACKSLASH && Unescape(t[1]).Some?
    ensures s.Short? && Unescape(t[1]) == Some(s.Value()) && t == s.Spelled() + t[2..]
  {
    var e := t[1];
    s := Short(if e == QUOTE then 0 else if e == BACKSLASH then 1 else if e == 0x2F then 2 else if e == 0x62 then 3
               else if e == 0x66 then 4 else if e == 0x6E then 5 else if e == 0x72 then 6 else 7);
    assert s.Spelled() == [BACKSLASH, e];
  }

  /** A high surrogate escape that the low one after it does not complete. */
  predicate Unpaired(s: Spelling, t: Text) {
    s.High() && StartsUnicodeEscape(t) && Hex4(t[2..]).Some? ==> !IsLow(Hex4(t[2..]).value)
  }

  lemma CharFound(t: Text) returns (cs: seq<Spelling>)
    requires ParseChar(t).Some?
    ensures t == CharsText(cs) + ParseChar(t).value.1 && CharsMeaning(cs) == [ParseChar(t).value.0]
    ensures (|cs| == 1 && Unpaired(cs[0], ParseChar(t).value.1)) || (|cs| == 2 && cs[0].High() && cs[1].Low())
  {
    hide Hex4, Unescape, Spelling.Spelled, Nibble.Char;
    if t[0] != BACKSLASH {
      cs := [Raw(t[0])];
      RawSpelled(cs[0]);
      assert t == [t[0]] + t[1..];
      OneChar(cs[0]);
    } else if t[1] != LETTER_U {
      var s := ShortFound(t);
      cs := [s];
      OneChar(s);
    } else {
      var s := UnitFound(t);
      cs := [s];
      OneChar(s);
      if IsHigh(s.Value()) && StartsUnicodeEscape(t[6..]) {
        assert t[8..] == t[6..][2..];
        var s2 := UnitFound(t[6..]);
        if s2.Low() {
          cs := [s, s2];
          TwoChars(s, s2);
          assert t[12..] == t[6..][6..];
        }
      }
    }
  }

  lemma RawSpelled(s: Spelling)
    ensures s.Raw? ==> s.Spelled() == [s.c]
  {}

  lemma OneChar(s: Spelling)
    ensures CharsText([s]) == s.Spelled() && CharsMeaning([s]) == [s.Value()]
  {
    assert [s][1..] == [];
    assert s.Spelled() + [] == s.Spelled();
  }

  lemma TwoChars(h: Spelling, l: Spelling)
    requires h.High() && l.Low()
    ensures CharsText([h, l]) == h.Spelled() + l.Spelled()
    ensures CharsMeaning([h, l]) == [0x1_0000 + (h.Value() - 0xD800) * 0x400 + (l.Value() - 0xDC00)]
  {
    hide Spelling.Spelled, Spelling.Value;
    assert [h, l][1..] == [l] && [h, l][2..] == [];
    OneChar(l);
  }

  lemma CharsConcat(a: seq<Spelling>, b: seq<Spelling>)
    requires 1 <= |a| <= 2
    ensures CharsText(a + b) == CharsText(a) + CharsText(b)
  {
    hide Spelling.Spelled;
    assert (a + b)[1..] == a[1..] + b;
    if |a| == 2 {
      assert a[1..] == [a[1]] && a == [a[0], a[1]];
      assert ([a[1]] + b)[1..] == b;
      OneChar(a[1]);
      assert CharsText(a + b) == a[0].Spelled() + (a[1].Spelled() + CharsText(b));
    } else {
      assert a == [a[0]] && a[1..] + b == b;
      OneChar(a[0]);
    }
  }

  lemma {:induction false} StringFound(t: Text) returns (cs: seq<Spelling>)
    requires ParseString(t).Some?
    ensures t == CharsText(cs) + ([QUOTE] + ParseString(t).value.1) && CharsMeaning(cs) == ParseString(t).value.0
    decreases |t|
  {
    hide ParseChar, Hex4, Spelling.Spelled, Spelling.Value;
    if t[0] == QUOTE {
      cs := [];
      assert t == [] + ([QUOTE] + t[1..]);
    } else {
      var (c, t1) := ParseChar(t).value;
      var rest := ParseString(t).value.1;
      var a := CharFound(t);
      var b := StringFound(t1);
      cs := a + b;
      CharsConcat(a, b);
      BodyStart(b, rest);
      assert t == CharsText(cs) + ([QUOTE] + rest);
      if |a| == 2 {
        assert cs[2..] == b;
        assert a[2..] == [];
      } else {
        assert cs[1..] == b;
        assert a[1..] == [];
      }
    }
  }

  // ---------- what is read is spelled by a tree: numbers and constants ----------

  lemma WholeFound(t: Text)
    requires ScanWhole(t).Some?
    ensures t == ScanWhole(t).value.0 + ScanWhole(t).value.1
  {}

  lemma FracFound(t: Text)
    ensures t == SpellFrac(ScanFrac(t).0) + ScanFrac(t).1
  {
    if |t| >= 2 && t[0] == DOT && IsDigit(t[1]) {
      assert t == [DOT] + t[1..];
      assert DigitRun(t[1..]) > 0;
    }
  }

  lemma ExponentFound(t: Text) returns (upper: bool, plus: bool)
    ensures t == ExponentText(ScanExp(t).0, upper, plus) + ScanExp(t).1
  {
    hide T;
    Marks();
    upper := t != [] && t[0] == UPPER_E;
    plus := 2 <= |t| && t[1] == PLUS;
    var e, rest := ScanExp(t).0, ScanExp(t).1;
    if e.ExpPart? {
      var signed := 2 <= |t| && (t[1] == PLUS || t[1] == MINUS);
      var ds := if signed then t[2..] else t[1..];
      assert ds == e.digits + rest;
      ExponentSplits(e, upper, plus, rest);
      if signed { assert t == [t[0], t[1]] + ds; } else { assert t == [t[0]] + ds; }
    }
  }

  lemma NumericFound(t: Text) returns (upper: bool, plus: bool)
    requires ScanNumber(t).Some?
    ensures t == NumericText(ScanNumber(t).value.0, upper, plus) + ScanNumber(t).value.1
  {
    hide ScanWhole, ScanFrac, ScanExp, NumericText, ExponentText;
    var n, rest := ScanNumber(t).value.0, ScanNumber(t).value.1;
    var t0 := if n.neg then t[1..] else t;
    var t1 := ScanWhole(t0).value.1;
    var t2 := ScanFrac(t1).1;
    WholeFound(t0);
    FracFound(t1);
    upper, plus := ExponentFound(t2);
    NumericSplits(n, upper, plus, rest);
    assert t == Sign(n.neg) + t0;
  }

  lemma ConstantFound(t: Text) returns (v: Literal)
    requires StartsConstant(t)
    ensures ParseLiteral(t).Some? && ParseLiteral(t).value.0 == v && t == ConstantText(v) + ParseLiteral(t).value.1
  {
    hide ScanNumber;
    ConstantTexts();
    v := ParseLiteral(t).value.0;
  }

  lemma LeafFound(t: Text) returns (d: Doc)
    requires ParseLiteral(t).Some?
    ensures t == DocText(d) + ParseLiteral(t).value.1 && Meaning(d) == ParseLiteral(t).value.0
    ensures KeysDistinct(d) && (d.Constant? || d.Numeric?)
  {
    hide ParseLiteral, ScanNumber, NumericText, ConstantText, NumericMeaning, NumberValue;
    if StartsConstant(t) {
      var v := ConstantFound(t);
      d := Constant(v);
    } else {
      NumberOtherwise(t);
      LiteralIsNumber(t);
      var upper, plus := NumericFound(t);
      NumericMeans(ScanNumber(t).value.0);
      d := Numeric(ScanNumber(t).value.0, upper, plus);
    }
  }

  // ---------- what is read is spelled by a tree: arrays and objects ----------

  /** What is skipped is the longest prefix of blanks. */
  lemma {:induction false} BlanksFound(t: Text) returns (gap: Blanks)
    ensures t == gap + SkipWs(t)
    ensures SkipWs(t) != [] ==> SkipWs(t)[0] !in [0x20, 0x09, 0x0A, 0x0D]
  {
    if t != [] && IsWs(t[0]) {
      var more := BlanksFound(t[1..]);
      gap := [t[0]] + more;
    } else {
      gap := [];
    }
  }

  /** Where a tree's text ends does not depend on what follows. */
  lemma Assemble(open: Text, gap: Text, body: Text, rest: Text)
    ensures open + (gap + body) + rest == open + (gap + (body + rest))
  {}

  lemma ArrayFound(t: Text, gap: Blanks, items: seq<Item>, rest: Text)
    requires t != [] && t[0] == OPEN_BRACKET && t[1..] == gap + (ItemsText(items) + rest)
    ensures t == DocText(Array(gap, items)) + rest
  {
    hide ItemsText;
    Assemble([OPEN_BRACKET], gap, ItemsText(items), rest);
    assert T("[") == [OPEN_BRACKET];
    assert t == [t[0]] + t[1..];
  }

  lemma ObjectFound(t: Text, gap: Blanks, es: seq<Entry>, rest: Text)
    requires t != [] && t[0] == OPEN_BRACE && t[1..] == gap + (EntriesText(es) + rest)
    ensures t == DocText(Object(gap, es)) + rest
  {
    hide EntriesText;
    Assemble([OPEN_BRACE], gap, EntriesText(es), rest);
    assert T("{") == [OPEN_BRACE];
    assert t == [t[0]] + t[1..];
  }

  lemma CharsFound(t: Text, cs: seq<Spelling>, rest: Text)
    requires t != [] && t[0] == QUOTE && t[1..] == CharsText(cs) + ([QUOTE] + rest)
    ensures t == StringText(cs) + rest
  {
    hide CharsText;
    Assemble([QUOTE], CharsText(cs), [QUOTE], rest);
    assert T("\"") == [QUOTE];
    assert t == [t[0]] + t[1..];
  }

  /** The body of an array or an object that its closing mark ends at once. */
  lemma EmptyFound(t: Text, close: CodePoint, rest: Text)
    requires t != [] && t[0] == close && rest == t[1..]
    ensures close == CLOSE_BRACKET ==> t == ItemsText([]) + rest
    ensures close == CLOSE_BRACE ==> t == EntriesText([]) + rest
  {}

  lemma {:induction false} DocFound(unique: bool, t: Text) returns (d: Doc)
    requires ParseValue(unique, t).Some?
    ensures t == DocText(d) + ParseValue(unique, t).value.1 && Meaning(d) == ParseValue(unique, t).value.0
    ensures unique ==> KeysDistinct(d)
    decreases |t|, 1
  {
    hide ParseLiteral, ParseString, ParseItems, ParseMembers, UniqueKeys, FromPairs, CharsMeaning;
    hide DocText, ItemsMeaning, EntriesMeaning, T, SkipWs, StringText, CharsText, ItemsText, EntriesText;
    var rest := ParseValue(unique, t).value.1;
    if t[0] == QUOTE {
      var cs := StringFound(t[1..]);
      d := Chars(cs);
      CharsFound(t, cs, rest);
      StringDoc(cs);
    } else if t[0] == OPEN_BRACKET {
      var gap := BlanksFound(t[1..]);
      var t1 := SkipWs(t[1..]);
      var items: seq<Item> := [];
      if t1 != [] && t1[0] == CLOSE_BRACKET {
        NoItems(rest);
        EmptyFound(t1, CLOSE_BRACKET, rest);
      } else {
        items := ItemsFound(unique, t1);
      }
      d := Array(gap, items);
      ArrayFound(t, gap, items, rest);
    } else if t[0] == OPEN_BRACE {
      var gap := BlanksFound(t[1..]);
      var t1 := SkipWs(t[1..]);
      var es: seq<Entry> := [];
      if t1 != [] && t1[0] == CLOSE_BRACE {
        NoEntries(rest);
        EmptyFound(t1, CLOSE_BRACE, rest);
      } else {
        es := EntriesFound(unique, t1);
      }
      d := Object(gap, es);
      ObjectFound(t, gap, es, rest);
    } else {
      d := LeafFound(t);
    }
  }

  lemma StringDoc(cs: seq<Spelling>)
    ensures DocText(Chars(cs)) == StringText(cs)
  {}

  lemma LastItemFound(d: Doc, after: Blanks, t: Text, rest: Text)
    requires t != [] && t[0] == CLOSE_BRACKET && rest == t[1..]
    ensures DocText(d) + (after + t) == ItemsText([Item(d, after, [])]) + rest
  {
    hide DocText;
    assert T("]") == [CLOSE_BRACKET] && t == [t[0]] + t[1..];
    Assemble(DocText(d), after, [CLOSE_BRACKET], rest);
  }

  lemma NextItemFound(i: Item, t: Text, more: seq<Item>, rest: Text)
    requires t != [] && t[0] == COMMA && t[1..] == i.next + (ItemsText(more) + rest) && more != []
    ensures DocText(i.d) + (i.after + t) == ItemsText([i] + more) + rest
  {
    hide DocText;
    var items := [i] + more;
    assert items[1..] == more && T(",") == [COMMA] && t == [t[0]] + t[1..];
    hide T;
    assert ItemsTail(items) == [COMMA] + (i.next + ItemsText(more));
    Assemble([COMMA], i.next, ItemsText(more), rest);
    assert ItemsText(items) == DocText(i.d) + (i.after + ItemsTail(items));
    hide ItemsText, ItemsTail;
    Assemble(DocText(i.d), i.after, ItemsTail(items), rest);
  }

  lemma {:induction false} ItemsFound(unique: bool, t: Text) returns (items: seq<Item>)
    requires ParseItems(unique, t).Some?
    ensures items != [] && t == ItemsText(items) + ParseItems(unique, t).value.1
    ensures ItemsMeaning(items) == ParseItems(unique, t).value.0
    ensures unique ==> ItemsDistinct(items)
    decreases |t|, 2
  {
    hide ParseValue, DocText, Meaning, KeysDistinct, SkipWs, ItemsText;
    var (v, t1) := ParseValue(unique, t).value;
    var rest := ParseItems(unique, t).value.1;
    var t2 := SkipWs(t1);
    var d := DocFound(unique, t);
    var after := BlanksFound(t1);
    if t2[0] == CLOSE_BRACKET {
      items := [Item(d, after, [])];
      OneItem(items);
      LastItemFound(d, after, t2, rest);
    } else {
      var next := BlanksFound(t2[1..]);
      var more := ItemsFound(unique, SkipWs(t2[1..]));
      items := [Item(d, after, next)] + more;
      assert items[1..] == more;
      NextItemFound(items[0], t2, more, rest);
    }
  }

  lemma EntryAssembled(e: Entry, t: Text, t2: Text, rest: Text)
    requires t != [] && t[0] == QUOTE && t[1..] == CharsText(e.key) + ([QUOTE] + (e.beforeColon + t2))
    requires t2 != [] && t2[0] == COLON && t2[1..] == e.afterColon + (DocText(e.item.d) + rest)
    ensures t == EntryText(e) + rest
  {
    hide DocText, CharsText, StringText;
    assert T(":") == [COLON] && t2 == [t2[0]] + t2[1..];
    hide T;
    var value := DocText(e.item.d);
    CharsFound(t, e.key, e.beforeColon + t2);
    Assemble([COLON], e.afterColon, value, rest);
    Assemble(StringText(e.key), e.beforeColon, [COLON] + (e.afterColon + value), rest);
  }

  lemma {:induction false} EntryFound(unique: bool, t: Text) returns (e: Entry)
    requires ParseMember(unique, t).Some?
    ensures t == EntryText(e) + ParseMember(unique, t).value.1 && EntryMeaning(e) == ParseMember(unique, t).value.0
    ensures unique ==> KeysDistinct(e.item.d)
    decreases |t|, 0
  {
    hide ParseValue, ParseString, DocText, Meaning, KeysDistinct, SkipWs, CharsText, CharsMeaning, EntryText;
    var t1 := ParseString(t[1..]).value.1;
    var t2 := SkipWs(t1);
    var key := StringFound(t[1..]);
    var before := BlanksFound(t1);
    var afterColon := BlanksFound(t2[1..]);
    var d := DocFound(unique, SkipWs(t2[1..]));
    e := Entry(key, before, afterColon, Item(d, [], []));
    EntryAssembled(e, t, t2, ParseMember(unique, t).value.1);
  }

  lemma LastEntryFound(e: Entry, t: Text, rest: Text)
    requires t != [] && t[0] == CLOSE_BRACE && rest == t[1..]
    ensures EntryText(e) + (e.item.after + t) == EntriesText([e]) + rest
  {
    hide EntryText;
    assert T("}") == [CLOSE_BRACE] && t == [t[0]] + t[1..];
    Assemble(EntryText(e), e.item.after, [CLOSE_BRACE], rest);
  }

  lemma NextEntryFound(e: Entry, t: Text, more: seq<Entry>, rest: Text)
    requires t != [] && t[0] == COMMA && t[1..] == e.item.next + (EntriesText(more) + rest) && more != []
    ensures EntryText(e) + (e.item.after + t) == EntriesText([e] + more) + rest
  {
    hide EntryText;
    var es := [e] + more;
    assert es[1..] == more && T(",") == [COMMA] && t == [t[0]] + t[1..];
    hide T;
    assert EntriesTail(es) == [COMMA] + (e.item.next + EntriesText(more));
    Assemble([COMMA], e.item.next, EntriesText(more), rest);
    assert EntriesText(es) == EntryText(e) + (e.item.after + EntriesTail(es));
    hide EntriesText, EntriesTail;
    Assemble(EntryText(e), e.item.after, EntriesTail(es), rest);
  }

  lemma {:induction false} EntriesFound(unique: bool, t: Text) returns (es: seq<Entry>)
    requires ParseMembers(unique, t).Some?
    ensures es != [] && t == EntriesText(es) + ParseMembers(unique, t).value.1
    ensures EntriesMeaning(es) == ParseMembers(unique, t).value.0
    ensures unique ==> EntriesDistinct(es)
    decreases |t|, 2
  {
    hide ParseMember, EntryText, EntryMeaning, KeysDistinct, SkipWs, EntriesText;
    var t1 := ParseMember(unique, t).value.1;
    var rest := ParseMembers(unique, t).value.1;
    var t2 := SkipWs(t1);
    var e0 := EntryFound(unique, t);
    var after := BlanksFound(t1);
    if t2[0] == CLOSE_BRACE {
      var e := e0.(item := Item(e0.item.d, after, []));
      SameEntry(e0, e);
      es := [e];
      OneEntry(es);
      LastEntryFound(e, t2, rest);
    } else {
      var next := BlanksFound(t2[1..]);
      var more := EntriesFound(unique, SkipWs(t2[1..]));
      var e := e0.(item := Item(e0.item.d, after, next));
      SameEntry(e0, e);
      es := [e] + more;
      assert es[1..] == more;
      NextEntryFound(e, t2, more, rest);
    }
  }

  lemma SameEntry(a: Entry, b: Entry)
    requires b == a.(item := Item(a.item.d, b.item.after, b.item.next))
    ensures EntryText(a) == EntryText(b) && EntryMeaning(a) == EntryMeaning(b)
  {}

  // ---------- json.loads ----------

  /** t is the tree's text between blanks. */
  predicate Spells(before: Blanks, d: Doc, after: Blanks, t: Text) { t == before + (DocText(d) + after) }

  /** Whatever a tree spells is read as what it means; only the key hook can refuse it. */
  lemma LoadsDoc(unique: bool, before: Blanks, d: Doc, after: Blanks)
    ensures Loads(unique, before + (DocText(d) + after)) == if unique && !KeysDistinct(d) then None else Some(Meaning(d))
  {
    hide ParseValue, DocText, Meaning, KeysDistinct, SkipWs, IsWs;
    var t := before + (DocText(d) + after);
    DocStart(d, after);
    SkipBlanks(before, DocText(d) + after);
    BlankEnds(after);
    DocReads(unique, d, after);
    BlankIsNoMark(before);
    assert after + [] == after;
    SkipBlanks(after, []);
  }

  lemma BlankEnds(gap: Blanks)
    ensures EndsNumber(gap)
  {
    if gap != [] { assert gap[0] in [0x20, 0x09, 0x0A, 0x0D]; }
  }

  lemma BlankIsNoMark(gap: Blanks)
    ensures gap != [] ==> gap[0] != BYTE_ORDER_MARK
  {
    if gap != [] { assert gap[0] in [0x20, 0x09, 0x0A, 0x0D]; }
  }

  /** Whatever is read was spelled by a tree that means it. */
  lemma DocOfLoads(unique: bool, t: Text) returns (before: Blanks, d: Doc, after: Blanks)
    requires Loads(unique, t).Some?
    ensures Spells(before, d, after, t) && Loads(unique, t) == Some(Meaning(d)) && (unique ==> KeysDistinct(d))
  {
    hide ParseValue, DocText, Meaning, KeysDistinct, SkipWs;
    before := BlanksFound(t);
    d := DocFound(unique, SkipWs(t));
    after := BlanksFound(ParseValue(unique, SkipWs(t)).value.1);
    assert after == ParseValue(unique, SkipWs(t)).value.1;
  }

  /** json.loads accepts exactly the texts of the grammar; with the hook, those that repeat no key. */
  lemma LoadsExactly(unique: bool, t: Text)
    ensures Loads(unique, t).Some? <==>
      exists before: Blanks, d: Doc, after: Blanks :: Spells(before, d, after, t) && (unique ==> KeysDistinct(d))
  {
    hide Loads, DocText, Meaning, KeysDistinct;
    if Loads(unique, t).Some? {
      var before, d, after := DocOfLoads(unique, t);
    }
    forall before: Blanks, d: Doc, after: Blanks | Spells(before, d, after, t) && (unique ==> KeysDistinct(d))
      ensures Loads(unique, t).Some?
    {
      LoadsDoc(unique, before, d, after);
    }
  }
}
