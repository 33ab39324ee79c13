/** What is compact about the two serialisations: no string has a shorter spelling, and blanks occur
    only inside strings. What blanks a writer adds, the reader does not see. */
module Compact {
  import opened Wrappers
  import opened Text
  import opened Numbers
  import opened Json
  import opened JsonParser
  import opened JsonWriter
  import opened RoundTrip
  import opened Grammar
  import opened Reader

  // ---------- strings ----------

  predicate AllLower(cs: seq<Spelling>) { forall i | 0 <= i < |cs| :: cs[i].LowerCase() }

  lemma NibbleIsHex(n: Nibble)
    ensures !n.Capital() ==> n.Char() == HexChar(n.d)
  {
    var d := n.d;
    assert d == 0 || d == 1 || d == 2 || d == 3 || d == 4 || d == 5 || d == 6 || d == 7
      || d == 8 || d == 9 || d == 10 || d == 11 || d == 12 || d == 13 || d == 14 || d == 15;
  }

  lemma UnitIsEscape(x: Spelling)
    requires x.Unit?
    ensures |x.Spelled()| == 6 && (x.LowerCase() ==> x.Spelled() == UnicodeEscape(x.Value()))
  {
    hide HexChar, Nibble.Char, Nibble.Capital;
    NibbleIsHex(x.a);
    NibbleIsHex(x.b);
    NibbleIsHex(x.c3);
    NibbleIsHex(x.c4);
    assert T("\\u") == [BACKSLASH, LETTER_U];
    var n := x.Value();
    assert n / 0x1000 == x.a.d && n / 0x100 == 0x10 * x.a.d + x.b.d && n / 0x10 == 0x100 * x.a.d + 0x10 * x.b.d + x.c3.d;
  }

  lemma ShortIsEscape(style: Style, x: Spelling)
    requires x.Short?
    ensures |x.Spelled()| == 2
    ensures |EscapeChar(style, x.Value())| < 2 || EscapeChar(style, x.Value()) == x.Spelled()
  {
    var i := x.i;
    assert i == 0 || i == 1 || i == 2 || i == 3 || i == 4 || i == 5 || i == 6 || i == 7;
  }

  /** One spelled character: its escape is no longer, and the only lower-case one of its length. */
  lemma CharIsShortest(style: Style, x: Spelling)
    requires style.Plain? ==> Printable(x.Spelled())
    ensures var e := EscapeChar(style, x.Value());
      |e| <= |x.Spelled()| && (|e| == |x.Spelled()| && x.LowerCase() ==> e == x.Spelled())
  {
    match x
    case Short(_) => ShortIsEscape(style, x);
    case Unit(_, _, _, _) =>
      hide UnicodeEscape;
      UnitIsEscape(x);
    case Raw(c) => assert style.Plain? ==> x.Spelled()[0] < 0x7F;
  }

  lemma HalvesOf(h: CodePoint, l: CodePoint)
    requires 0xD800 <= h < 0xDC00 && 0xDC00 <= l < 0xE000
    ensures var c := 0x1_0000 + (h - 0xD800) * 0x400 + (l - 0xDC00); HighHalf(c) == h && LowHalf(c) == l
  {}

  lemma AstralEscape(style: Style, c: CodePoint)
    requires 0x1_0000 <= c
    ensures EscapeChar(style, c) == if style.Jcs? then [c] else UnicodeEscape(HighHalf(c)) + UnicodeEscape(LowHalf(c))
  {
    hide UnicodeEscape;
  }

  lemma PairIsShortest(style: Style, h: Spelling, l: Spelling)
    requires h.High() && l.Low()
    ensures var e, t := EscapeChar(style, CharsMeaning([h, l])[0]), h.Spelled() + l.Spelled();
      |e| <= |t| && (|e| == |t| && h.LowerCase() && l.LowerCase() ==> e == t)
  {
    hide UnicodeEscape, CharsMeaning, Spelling.Spelled, HighHalf, LowHalf, EscapeChar, Spelling.LowerCase, Spelling.Value;
    TwoChars(h, l);
    var c := CharsMeaning([h, l])[0];
    HalvesOf(h.Value(), l.Value());
    AstralEscape(style, c);
    UnitIsEscape(h);
    UnitIsEscape(l);
  }

  lemma NoChars()
    ensures CharsText([]) == [] && CharsMeaning([]) == []
  {}

  /** However a string is spelled (printably, for json.dumps), its escaped form is no longer, and the
      only spelling of its length with lower-case hexadecimal digits. */
  lemma {:induction false} EscapeIsShortest(style: Style, cs: seq<Spelling>)
    requires style.Plain? ==> Printable(CharsText(cs))
    ensures var e, t := Escape(style, CharsMeaning(cs)), CharsText(cs);
      |e| <= |t| && (|e| == |t| && AllLower(cs) ==> e == t)
    decreases |cs|
  {
    hide EscapeChar, Spelling.Spelled, Spelling.LowerCase, CharsMeaning;
    if cs != [] {
      var n := if 2 <= |cs| && cs[0].High() && cs[1].Low() then 2 else 1;
      var a, b := cs[..n], cs[n..];
      assert cs == a + b;
      CharsConcat(a, b);
      MeaningSplits(cs, n);
      PrintableSplits(CharsText(a), CharsText(b));
      EscapeIsShortest(style, b);
      var c := CharsMeaning(a)[0];
      EscapeFirst(style, c, CharsMeaning(b));
      if n == 2 {
        assert a == [cs[0], cs[1]];
        TwoChars(cs[0], cs[1]);
        PairIsShortest(style, cs[0], cs[1]);
      } else {
        assert a == [cs[0]];
        OneChar(cs[0]);
        CharIsShortest(style, cs[0]);
      }
      LowerSplits(cs, n);
      SplitEqual(EscapeChar(style, c), CharsText(a), Escape(style, CharsMeaning(b)), CharsText(b));
    } else {
      NoChars();
    }
  }

  lemma SplitEqual(a: Text, a': Text, b: Text, b': Text)
    requires |a| <= |a'| && |b| <= |b'|
    ensures |a + b| <= |a' + b'| && (|a + b| == |a' + b'| ==> |a| == |a'| && |b| == |b'|)
  {}

  lemma MeaningPair(h: Spelling, l: Spelling, b: seq<Spelling>)
    requires h.High() && l.Low()
    ensures CharsMeaning([h, l] + b) == CharsMeaning([h, l]) + CharsMeaning(b) && |CharsMeaning([h, l])| == 1
  {
    hide Spelling.Value;
    TwoChars(h, l);
    assert ([h, l] + b)[2..] == b;
  }

  lemma MeaningOne(x: Spelling, b: seq<Spelling>)
    requires !(x.High() && b != [] && b[0].Low())
    ensures CharsMeaning([x] + b) == CharsMeaning([x]) + CharsMeaning(b) && |CharsMeaning([x])| == 1
  {
    OneChar(x);
    assert ([x] + b)[1..] == b;
    hide Spelling.Value;
  }

  lemma MeaningSplits(cs: seq<Spelling>, n: nat)
    requires cs != [] && n == if 2 <= |cs| && cs[0].High() && cs[1].Low() then 2 else 1
    ensures CharsMeaning(cs) == CharsMeaning(cs[..n]) + CharsMeaning(cs[n..]) && |CharsMeaning(cs[..n])| == 1
  {
    hide CharsMeaning, Spelling.High, Spelling.Low;
    assert cs == cs[..n] + cs[n..];
    if n == 2 {
      assert cs[..2] == [cs[0], cs[1]];
      MeaningPair(cs[0], cs[1], cs[2..]);
    } else {
      assert cs[..1] == [cs[0]];
      MeaningOne(cs[0], cs[1..]);
    }
  }

  lemma PrintableSplits(a: Text, b: Text)
    ensures Printable(a + b) ==> Printable(a) && Printable(b)
  {
    if Printable(a + b) {
      assert forall i | 0 <= i < |a| :: a[i] == (a + b)[i];
      assert forall i | 0 <= i < |b| :: b[i] == (a + b)[|a| + i];
    }
  }

  lemma EscapeFirst(style: Style, c: CodePoint, s: Text)
    ensures Escape(style, [c] + s) == EscapeChar(style, c) + Escape(style, s)
  {
    assert ([c] + s)[1..] == s;
  }

  lemma LowerSplits(cs: seq<Spelling>, n: nat)
    requires n <= |cs|
    ensures AllLower(cs) ==> AllLower(cs[..n]) && AllLower(cs[n..])
  {}

  /** The same of the reader: whatever it reads as s before the closing quote is no shorter than the
      escaped form of s. */
  lemma NoShorterBody(style: Style, t: Text, rest: Text) returns (cs: seq<Spelling>)
    requires ParseString(t + ([QUOTE] + rest)).Some? && ParseString(t + ([QUOTE] + rest)).value.1 == rest
    requires style.Plain? ==> Printable(t)
    ensures t == CharsText(cs)
    ensures var e := Escape(style, ParseString(t + ([QUOTE] + rest)).value.0);
      |e| <= |t| && (|e| == |t| && AllLower(cs) ==> e == t)
  {
    hide ParseString, Escape, CharsText, CharsMeaning;
    cs := StringFound(t + ([QUOTE] + rest));
    assert t == (t + ([QUOTE] + rest))[..|t|] && CharsText(cs) == (CharsText(cs) + ([QUOTE] + rest))[..|CharsText(cs)|];
    EscapeIsShortest(style, cs);
  }

  // ---------- blanks ----------

  /** Blanks change neither what a tree means nor which keys repeat; respacing twice is respacing once. */
  lemma {:induction false} RespacedMeans(d: Doc, comma: Blanks, colon: Blanks, comma': Blanks, colon': Blanks)
    ensures var r := Respaced(d, comma, colon);
      && Meaning(r) == Meaning(d) && KeysDistinct(r) == KeysDistinct(d)
      && Respaced(r, comma', colon') == Respaced(d, comma', colon')
    decreases d, 0
  {
    hide CharsMeaning, FromPairs, UniqueKeys;
    match d
    case Array(_, items) => ItemsRespaced(items, comma, colon, comma', colon');
    case Object(_, es) => EntriesRespaced(es, comma, colon, comma', colon');
    case _ =>
  }

  lemma {:induction false} ItemsRespaced(items: seq<Item>, comma: Blanks, colon: Blanks, comma': Blanks, colon': Blanks)
    ensures var r := RespacedItems(items, comma, colon);
      && ItemsMeaning(r) == ItemsMeaning(items) && ItemsDistinct(r) == ItemsDistinct(items)
      && RespacedItems(r, comma', colon') == RespacedItems(items, comma', colon')
    decreases items, 1
  {
    hide Meaning, Respaced, KeysDistinct;
    if items != [] {
      var r := RespacedItems(items, comma, colon);
      RespacedMeans(items[0].d, comma, colon, comma', colon');
      ItemsRespaced(items[1..], comma, colon, comma', colon');
      assert r[1..] == RespacedItems(items[1..], comma, colon);
    }
  }

  lemma {:induction false} EntriesRespaced(es: seq<Entry>, comma: Blanks, colon: Blanks, comma': Blanks, colon': Blanks)
    ensures var r := RespacedEntries(es, comma, colon);
      && EntriesMeaning(r) == EntriesMeaning(es) && EntriesDistinct(r) == EntriesDistinct(es)
      && RespacedEntries(r, comma', colon') == RespacedEntries(es, comma', colon')
    decreases es, 1
  {
    hide Meaning, Respaced, KeysDistinct, CharsMeaning;
    if es != [] {
      var r := RespacedEntries(es, comma, colon);
      RespacedMeans(es[0].item.d, comma, colon, comma', colon');
      EntriesRespaced(es[1..], comma, colon, comma', colon');
      assert r[1..] == RespacedEntries(es[1..], comma, colon);
    }
  }

  /** The reader does not see blanks between tokens. */
  lemma BlanksIrrelevant(unique: bool, before: Blanks, d: Doc, after: Blanks)
    ensures Loads(unique, before + (DocText(d) + after)) == Loads(unique, DocText(Bare(d)))
  {
    hide Loads, DocText, Meaning, KeysDistinct, Respaced;
    RespacedMeans(d, [], [], [], []);
    LoadsDoc(unique, before, d, after);
    LoadsDoc(unique, [], Bare(d), []);
    assert [] + (DocText(Bare(d)) + []) == DocText(Bare(d));
  }

  // ---------- the two serialisations have none ----------

  lemma StringDocOf(style: Style, s: Text) returns (cs: seq<Spelling>)
    ensures StringText(cs) == Quoted(style, s)
  {
    hide ParseString, Escape, CharsText;
    var t := Escape(style, s) + ([QUOTE] + []);
    StringBack(style, s, []);
    cs := StringFound(t);
    assert T("\"") == [QUOTE] && [QUOTE] + [] == [QUOTE];
    assert CharsText(cs) == t[..|t| - 1] == Escape(style, s);
  }

  lemma LeafDocOf(style: Style, v: Value) returns (d: Doc)
    requires Writable(style, v) && ReprLaw(style.repr) && IsLeaf(v)
    ensures DocText(d) == Write(style, v) && Bare(d) == d
  {
    hide ParseLiteral, DocText, Write, ReprLaw;
    LeafBack(style, v, []);
    assert Write(style, v) + [] == Write(style, v);
    d := LeafFound(Write(style, v));
    assert DocText(d) + [] == DocText(d);
  }

  /** What either style writes is a tree without blanks. */
  lemma {:induction false} WriteIsBare(style: Style, v: Value) returns (d: Doc)
    requires Writable(style, v) && ReprLaw(style.repr)
    ensures DocText(d) == Write(style, v) && Bare(d) == d
    decreases v, 0
  {
    hide ReprLaw, WriteItems, WriteMembers, ItemsText, EntriesText, RespacedItems, RespacedEntries, StringText, Quoted;
    if IsLeaf(v) {
      d := LeafDocOf(style, v);
    } else if v.Str? {
      var cs := StringDocOf(style, v.s);
      d := Chars(cs);
    } else if v.Dict? {
      var es: seq<Entry> := [];
      EmptySpelled();
      if v.members != [] { es := MembersAreBare(style, v.members); } else { NothingRespaced(); }
      d := Object([], es);
      assert T("{") == [OPEN_BRACE] && [] + EntriesText(es) == EntriesText(es);
    } else {
      var items: seq<Item> := [];
      EmptySpelled();
      if v.items != [] { items := ItemsAreBare(style, v.items); } else { NothingRespaced(); }
      d := Array([], items);
      assert T("[") == [OPEN_BRACKET] && [] + ItemsText(items) == ItemsText(items);
    }
  }

  lemma EmptySpelled()
    ensures ItemsText([]) == [CLOSE_BRACKET] && EntriesText([]) == [CLOSE_BRACE]
  {}

  lemma NothingRespaced()
    ensures RespacedItems([], [], []) == [] && RespacedEntries([], [], []) == []
  {}

  lemma {:induction false} ItemsAreBare(style: Style, xs: seq<Value>) returns (items: seq<Item>)
    requires xs != [] && ReprLaw(style.repr) && forall i | 0 <= i < |xs| :: Writable(style, xs[i])
    ensures items != [] && ItemsText(items) == WriteItems(style, xs) && RespacedItems(items, [], []) == items
    decreases xs, 1
  {
    hide ReprLaw, Write, Writable, DocText, Respaced;
    var d := WriteIsBare(style, xs[0]);
    var more: seq<Item> := [];
    if |xs| > 1 { more := ItemsAreBare(style, xs[1..]); }
    items := [Item(d, [], [])] + more;
    assert items[1..] == more && T(",") == [COMMA] && T("]") == [CLOSE_BRACKET];
    assert [] + ItemsTail(items) == ItemsTail(items) && [] + ItemsText(more) == ItemsText(more);
  }

  lemma {:induction false} MembersAreBare(style: Style, ms: seq<Member>) returns (es: seq<Entry>)
    requires ms != [] && ReprLaw(style.repr) && forall i | 0 <= i < |ms| :: Writable(style, ms[i].value)
    ensures es != [] && EntriesText(es) == WriteMembers(style, ms) && RespacedEntries(es, [], []) == es
    decreases ms, 1
  {
    hide ReprLaw, Write, Writable, DocText, Respaced, Quoted, StringText;
    var d := WriteIsBare(style, ms[0].value);
    var key := StringDocOf(style, ms[0].key);
    var e := Entry(key, [], [], Item(d, [], []));
    assert EntryText(e) == WriteMember(style, ms[0]) by {
      assert T(":") == [COLON] && [] + DocText(d) == DocText(d);
      assert [] + ([COLON] + DocText(d)) == [COLON] + DocText(d);
    }
    hide EntryText, WriteMember;
    var more: seq<Entry> := [];
    if |ms| > 1 { more := MembersAreBare(style, ms[1..]); }
    es := [e] + more;
    assert es[1..] == more && T(",") == [COMMA] && T("}") == [CLOSE_BRACE];
    assert [] + EntriesTail(es) == EntriesTail(es) && [] + EntriesText(more) == EntriesText(more);
  }

  /** Inserting blanks between the tokens of a serialised value changes nothing. */
  lemma SpacedLoads(unique: bool, style: Style, v: Value, before: Blanks, d: Doc, after: Blanks)
    requires Writable(style, v) && ReprLaw(style.repr) && DocText(Bare(d)) == Write(style, v)
    requires unique ==> WireUnique(style, v)
    ensures Loads(unique, before + (DocText(d) + after)) == Some(Wire(style, v))
  {
    hide Loads, DocText, Respaced, Write, Wire, ReprLaw;
    BlanksIrrelevant(unique, before, d, after);
    LoadsBack(unique, style, v);
  }

  /** json.dumps with its default separators ", " and ": " is read like its compact form. */
  lemma DefaultSeparators(repr: Repr, v: Value) returns (d: Doc)
    requires Writable(Plain(repr), v) && ReprLaw(repr)
    ensures d == Respaced(d, [0x20], [0x20]) && DocText(Bare(d)) == Write(Plain(repr), v)
    ensures Loads(false, DocText(d)) == Some(Wire(Plain(repr), v))
  {
    hide Loads, DocText, Respaced, Write, Wire, ReprLaw;
    var bare := WriteIsBare(Plain(repr), v);
    d := Respaced(bare, [0x20], [0x20]);
    RespacedMeans(bare, [0x20], [0x20], [0x20], [0x20]);
    RespacedMeans(bare, [0x20], [0x20], [], []);
    SpacedLoads(false, Plain(repr), v, [], d, []);
    assert [] + (DocText(d) + []) == DocText(d);
  }
}
