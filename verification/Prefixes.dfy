/** What json.loads has read of an object stays read when text is appended; hence no proper
    prefix of a serialised object is itself JSON. */
module Prefixes {
  import opened Wrappers
  import opened Text
  import opened Decimal
  import opened Numeral
  import opened Numbers
  import opened Json
  import opened JsonParser
  import opened JsonWriter
  import opened RoundTrip

  lemma HexExtend(t: Text, x: Text)
    requires Hex4(t).Some?
    ensures Hex4(t + x) == Hex4(t)
  {}

  lemma CharExtend(t: Text, x: Text)
    requires ParseChar(t).Some?
    requires var r := ParseChar(t).value.1; r != [] && (r[0] == BACKSLASH ==> 2 <= |r|)
    ensures ParseChar(t + x) == Some((ParseChar(t).value.0, ParseChar(t).value.1 + x))
  {
    hide Hex4;
    var u := t + x;
    if t[0] != BACKSLASH {
      assert u[1..] == t[1..] + x;
    } else if t[1] != LETTER_U {
      assert u[2..] == t[2..] + x;
    } else {
      HexLength(t[2..]);
      HexExtend(t[2..], x);
      assert u[2..] == t[2..] + x && u[6..] == t[6..] + x;
      assert StartsUnicodeEscape(u[6..]) == StartsUnicodeEscape(t[6..]);
      if StartsUnicodeEscape(t[6..]) && IsHigh(Hex4(t[2..]).value) {
        HexLength(t[8..]);
        HexExtend(t[8..], x);
        assert u[8..] == t[8..] + x && u[12..] == t[12..] + x;
      }
    }
  }

  lemma {:induction false} StringExtend(t: Text, x: Text)
    requires ParseString(t).Some?
    ensures ParseString(t + x) == Some((ParseString(t).value.0, ParseString(t).value.1 + x))
    decreases |t|
  {
    var u := t + x;
    if t != [] && t[0] == QUOTE {
      assert u[1..] == t[1..] + x;
    } else {
      var t1 := ParseChar(t).value.1;
      StringNonempty(t1);
      CharExtend(t, x);
      CharNonempty(t);
      StringExtend(t1, x);
    }
  }

  lemma CharNonempty(t: Text)
    requires ParseChar(t).Some?
    ensures t != [] && t[0] != QUOTE
  {}

  lemma StringNonempty(t: Text)
    requires ParseString(t).Some?
    ensures t != [] && (t[0] == BACKSLASH ==> 2 <= |t|)
  {}

  lemma {:induction false} SkipExtend(t: Text, x: Text)
    requires SkipWs(t) != []
    ensures SkipWs(t + x) == SkipWs(t) + x
  {
    assert (t + x)[1..] == t[1..] + x;
    if IsWs(t[0]) { SkipExtend(t[1..], x); }
  }

  // ---------- numbers ----------

  lemma {:induction false} RunExtend(t: Text, x: Text)
    requires DigitRun(t) < |t|
    ensures var n := DigitRun(t); DigitRun(t + x) == n && (t + x)[..n] == t[..n] && (t + x)[n..] == t[n..] + x
  {
    if IsDigit(t[0]) {
      assert (t + x)[1..] == t[1..] + x;
      RunExtend(t[1..], x);
    }
  }

  lemma WholeExtend(t: Text, x: Text)
    requires ScanWhole(t).Some? && ScanWhole(t).value.1 != []
    ensures ScanWhole(t + x) == Some((ScanWhole(t).value.0, ScanWhole(t).value.1 + x))
  {
    if t[0] != ZERO_CHAR { RunExtend(t, x); } else { assert (t + x)[1..] == t[1..] + x; }
  }

  lemma FracExtend(t: Text, x: Text)
    requires var r := ScanFrac(t).1; r != [] && r[0] != DOT
    ensures ScanFrac(t + x) == (ScanFrac(t).0, ScanFrac(t).1 + x)
  {
    if t[0] == DOT {
      assert (t + x)[1..] == t[1..] + x;
      RunExtend(t[1..], x);
    }
  }

  lemma ExpExtend(t: Text, x: Text)
    requires var r := ScanExp(t).1; r != [] && r[0] != LOWER_E && r[0] != UPPER_E
    ensures ScanExp(t + x) == (ScanExp(t).0, ScanExp(t).1 + x)
  {
    if t[0] == LOWER_E || t[0] == UPPER_E {
      var signed := |t| >= 2 && (t[1] == PLUS || t[1] == MINUS);
      var ds := if signed then t[2..] else t[1..];
      assert 2 <= |t|;
      assert (if signed then (t + x)[2..] else (t + x)[1..]) == ds + x;
      RunExtend(ds, x);
    }
  }

  /** A number followed by something that cannot continue it. */
  lemma NumberExtend(t: Text, x: Text)
    requires ScanNumber(t).Some?
    requires var r := ScanNumber(t).value.1; r != [] && EndsNumber(r)
    ensures ScanNumber(t + x) == Some((ScanNumber(t).value.0, ScanNumber(t).value.1 + x))
  {
    hide ScanWhole, ScanFrac, ScanExp;
    var neg := t[0] == MINUS;
    var t0 := if neg then t[1..] else t;
    var t1 := ScanWhole(t0).value.1;
    var t2 := ScanFrac(t1).1;
    assert (t + x)[0] == t[0] && (t + x)[1..] == t[1..] + x;
    ExpStops(t2);
    ExpExtend(t2, x);
    FracExtend(t1, x);
    WholeExtend(t0, x);
  }

  lemma ExpStops(t: Text)
    requires var r := ScanExp(t).1; r != [] && EndsNumber(r)
    ensures t != [] && t[0] != DOT
  {}

  predicate StartsConstant(t: Text) {
    NULL_TEXT <= t || TRUE_TEXT <= t || FALSE_TEXT <= t || NAN_TEXT <= t || INFINITY_TEXT <= t || MINUS_INFINITY_TEXT <= t
  }

  function LeadingConstant(t: Text): (c: Text)
    requires StartsConstant(t)
    ensures c <= t && c in [NULL_TEXT, TRUE_TEXT, FALSE_TEXT, NAN_TEXT, INFINITY_TEXT, MINUS_INFINITY_TEXT]
  {
    if NULL_TEXT <= t then NULL_TEXT else if TRUE_TEXT <= t then TRUE_TEXT else if FALSE_TEXT <= t then FALSE_TEXT
    else if NAN_TEXT <= t then NAN_TEXT else if INFINITY_TEXT <= t then INFINITY_TEXT else MINUS_INFINITY_TEXT
  }

  lemma LiteralExtend(t: Text, x: Text)
    requires ParseLiteral(t).Some?
    requires var r := ParseLiteral(t).value.1; r != [] && EndsNumber(r)
    ensures ParseLiteral(t + x) == Some((ParseLiteral(t).value.0, ParseLiteral(t).value.1 + x))
  {
    hide ScanNumber;
    if StartsConstant(t) {
      hide ParseLiteral;
      var c := LeadingConstant(t);
      var rest := t[|c|..];
      assert t == c + rest && t + x == c + (rest + x);
      ConstantBack(c, rest);
      ConstantBack(c, rest + x);
    } else {
      NumberOtherwise(t);
      hide ParseLiteral;
      NumberExtend(t, x);
      LiteralIsNumber(t + x);
      LiteralIsNumber(t);
    }
  }

  lemma NumberOtherwise(t: Text)
    requires ParseLiteral(t).Some?
    requires !StartsConstant(t)
    ensures ScanNumber(t).Some? && ParseLiteral(t).value.1 == ScanNumber(t).value.1
  {
    hide ScanNumber;
  }

  // ---------- values ----------

  /** Strings, arrays and objects show where they end; a literal needs what follows it to tell. */
  predicate Delimited(t: Text, rest: Text) {
    t != [] && (t[0] == QUOTE || t[0] == OPEN_BRACKET || t[0] == OPEN_BRACE || (rest != [] && EndsNumber(rest)))
  }

  lemma {:induction false} ValueExtend(unique: bool, t: Text, x: Text)
    requires ParseValue(unique, t).Some? && Delimited(t, ParseValue(unique, t).value.1)
    ensures ParseValue(unique, t + x) == Some((ParseValue(unique, t).value.0, ParseValue(unique, t).value.1 + x))
    decreases |t|, 1
  {
    hide ParseLiteral, ParseString, ParseItems, ParseMembers, UniqueKeys, FromPairs;
    var u := t + x;
    assert u[1..] == t[1..] + x;
    if t[0] == QUOTE {
      StringExtend(t[1..], x);
    } else if t[0] == OPEN_BRACKET {
      var t1 := SkipWs(t[1..]);
      if t1 == [] { ItemsNonempty(unique, t1); }
      SkipExtend(t[1..], x);
      if t1[0] == CLOSE_BRACKET {
        assert (t1 + x)[1..] == t1[1..] + x;
      } else {
        ItemsExtend(unique, t1, x);
      }
    } else if t[0] == OPEN_BRACE {
      var t1 := SkipWs(t[1..]);
      if t1 == [] { MembersNonempty(unique, t1); }
      SkipExtend(t[1..], x);
      if t1[0] == CLOSE_BRACE {
        assert (t1 + x)[1..] == t1[1..] + x;
      } else {
        MembersExtend(unique, t1, x);
      }
    } else {
      LiteralExtend(t, x);
    }
  }

  lemma ItemsNonempty(unique: bool, t: Text)
    requires t == []
    ensures ParseItems(unique, t).None?
  {}

  lemma MembersNonempty(unique: bool, t: Text)
    requires t == []
    ensures ParseMembers(unique, t).None?
  {}

  /** What comes after a value in an array or an object ends a number. */
  lemma {:induction false} SkipEnds(t: Text)
    requires SkipWs(t) != [] && EndsNumber(SkipWs(t))
    ensures t != [] && EndsNumber(t)
  {
    if IsWs(t[0]) { SkipEnds(t[1..]); }
  }

  lemma {:induction false} ItemsExtend(unique: bool, t: Text, x: Text)
    requires ParseItems(unique, t).Some?
    ensures ParseItems(unique, t + x) == Some((ParseItems(unique, t).value.0, ParseItems(unique, t).value.1 + x))
    decreases |t|, 2
  {
    hide ParseValue;
    var t1 := ParseValue(unique, t).value.1;
    var t2 := SkipWs(t1);
    SkipEnds(t1);
    ValueNonempty(unique, t);
    ValueExtend(unique, t, x);
    SkipExtend(t1, x);
    assert (t2 + x)[1..] == t2[1..] + x;
    if t2[0] == COMMA {
      var t3 := SkipWs(t2[1..]);
      if t3 == [] { ItemsNonempty(unique, t3); }
      SkipExtend(t2[1..], x);
      ItemsExtend(unique, t3, x);
    }
  }

  lemma ValueNonempty(unique: bool, t: Text)
    requires ParseValue(unique, t).Some?
    ensures t != []
  {}

  lemma {:induction false} MemberExtend(unique: bool, t: Text, x: Text)
    requires ParseMember(unique, t).Some?
    requires var r := ParseMember(unique, t).value.1; r != [] && EndsNumber(r)
    ensures ParseMember(unique, t + x) == Some((ParseMember(unique, t).value.0, ParseMember(unique, t).value.1 + x))
    decreases |t|, 0
  {
    hide ParseValue, ParseString;
    var t1 := ParseString(t[1..]).value.1;
    var t2 := SkipWs(t1);
    var t3 := SkipWs(t2[1..]);
    assert (t + x)[1..] == t[1..] + x;
    StringExtend(t[1..], x);
    SkipExtend(t1, x);
    assert (t2 + x)[1..] == t2[1..] + x;
    ValueNonempty(unique, t3);
    SkipExtend(t2[1..], x);
    ValueExtend(unique, t3, x);
  }

  lemma {:induction false} MembersExtend(unique: bool, t: Text, x: Text)
    requires ParseMembers(unique, t).Some?
    ensures ParseMembers(unique, t + x) == Some((ParseMembers(unique, t).value.0, ParseMembers(unique, t).value.1 + x))
    decreases |t|, 2
  {
    hide ParseMember;
    var t1 := ParseMember(unique, t).value.1;
    var t2 := SkipWs(t1);
    SkipEnds(t1);
    MemberExtend(unique, t, x);
    SkipExtend(t1, x);
    assert (t2 + x)[1..] == t2[1..] + x;
    if t2[0] == COMMA {
      var t3 := SkipWs(t2[1..]);
      if t3 == [] { MembersNonempty(unique, t3); }
      SkipExtend(t2[1..], x);
      MembersExtend(unique, t3, x);
    }
  }

  /** No proper prefix of a serialised object is JSON. */
  lemma NoPrefixParses(style: Style, v: Value, p: Text)
    requires v.Dict? && Writable(style, v) && ReprLaw(style.repr)
    requires p < Write(style, v)
    ensures Loads(false, p).None?
  {
    hide Write, ParseValue, Wire;
    var t := Write(style, v);
    var x := t[|p|..];
    assert t == p + x && t + [] == t;
    ObjectStart(style, v);
    if Loads(false, p).Some? {
      ValueNonempty(false, SkipWs(p));
      assert p[0] == t[0];
      ValueExtend(false, p, x);
      ValueBack(false, style, v, []);
    }
  }

  lemma ObjectStart(style: Style, v: Value)
    requires v.Dict?
    ensures Write(style, v) != [] && Write(style, v)[0] == OPEN_BRACE
  {}
}
