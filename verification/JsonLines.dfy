/** Files of JSON lines that other writers made: which lines the sink's reader takes for a record. */
module JsonLines {
  import opened Wrappers
  import opened Text
  import opened Decimal
  import opened Encoding
  import opened Numeral
  import opened Numbers
  import opened Json
  import opened JsonParser
  import opened JsonWriter
  import opened RoundTrip
  import opened Grammar
  import opened Reader
  import opened Compact
  import opened JsonlSink

  /** The characters that str.strip removes. */
  const SPACES: Text := [
    0x09, 0x0A, 0x0B, 0x0C, 0x0D, 0x1C, 0x1D, 0x1E, 0x1F, 0x20, 0x85, 0xA0, 0x1680, 0x2000, 0x2001, 0x2002, 0x2003,
    0x2004, 0x2005, 0x2006, 0x2007, 0x2008, 0x2009, 0x200A, 0x2028, 0x2029, 0x202F, 0x205F, 0x3000]

  predicate Space(c: CodePoint) { c in SPACES }

  predicate AllSpace(t: Text) { forall i | 0 <= i < |t| :: Space(t[i]) }

  lemma SpacesListed(c: CodePoint)
    ensures IsSpace(c) <==> Space(c)
  {}

  predicate Tight(t: Text) { t != [] && !IsSpace(t[0]) && !IsSpace(t[|t| - 1]) }

  // ---------- str.strip ----------

  lemma {:induction false} FrontOff(before: Text, t: Text)
    requires AllSpace(before) && (t == [] || !IsSpace(t[0]))
    ensures StripFront(before + t) == t
  {
    hide IsSpace, Space;
    if before == [] {
      assert before + t == t;
    } else {
      SpacesListed(before[0]);
      assert (before + t)[1..] == before[1..] + t;
      FrontOff(before[1..], t);
    }
  }

  lemma {:induction false} BackOff(t: Text, after: Text)
    requires AllSpace(after) && (t == [] || !IsSpace(t[|t| - 1]))
    ensures StripBack(t + after) == t
  {
    hide IsSpace, Space;
    var n := |after|;
    if n == 0 {
      assert t + after == t;
    } else {
      SpacesListed(after[n - 1]);
      assert (t + after)[..|t| + n - 1] == t + after[..n - 1];
      BackOff(t, after[..n - 1]);
    }
  }

  lemma StripTightened(before: Text, t: Text, after: Text)
    requires AllSpace(before) && AllSpace(after) && Tight(t)
    ensures Strip(before + (t + after)) == t
  {
    hide IsSpace, Space, StripFront, StripBack;
    FrontOff(before, t + after);
    BackOff(t, after);
  }

  lemma {:induction false} FrontFound(t: Text) returns (before: Text)
    ensures AllSpace(before) && t == before + StripFront(t) && (StripFront(t) != [] ==> !IsSpace(StripFront(t)[0]))
  {
    hide IsSpace, Space;
    if t != [] && IsSpace(t[0]) {
      SpacesListed(t[0]);
      var more := FrontFound(t[1..]);
      before := [t[0]] + more;
    } else {
      before := [];
    }
  }

  lemma {:induction false} BackFound(t: Text) returns (after: Text)
    ensures AllSpace(after) && t == StripBack(t) + after
    ensures StripBack(t) != [] ==> !IsSpace(StripBack(t)[|StripBack(t)| - 1])
  {
    hide IsSpace, Space;
    var n := |t|;
    if t != [] && IsSpace(t[n - 1]) {
      SpacesListed(t[n - 1]);
      var more := BackFound(t[..n - 1]);
      after := more + [t[n - 1]];
      assert t == t[..n - 1] + [t[n - 1]];
    } else {
      after := [];
      assert t == t + [];
    }
  }

  // ---------- one line ----------

  /** Where a tree's text starts and ends there is no space. */
  lemma DocTight(d: Doc)
    ensures Tight(DocText(d))
  {
    match d
    case Constant(v) => ConstantTight(v);
    case Numeric(n, upper, plus) => NumericTight(n, upper, plus);
    case Chars(cs) =>
      hide CharsText;
      assert T("\"") == [QUOTE];
    case Array(gap, items) =>
      hide ItemsText;
      ItemsEnd(items);
      assert T("[") == [OPEN_BRACKET];
    case Object(gap, es) =>
      hide EntriesText;
      EntriesEnd(es);
      assert T("{") == [OPEN_BRACE];
  }

  lemma ConstantTight(v: Literal)
    ensures Tight(ConstantText(v))
  {
    ConstantTexts();
  }

  lemma DigitIsTight(c: CodePoint)
    ensures IsDigit(c) || c == MINUS ==> !IsSpace(c)
  {}

  lemma NumericTight(n: WellFormed, upper: bool, plus: bool)
    ensures Tight(NumericText(n, upper, plus))
  {
    hide IsSpace, IsDigit, T;
    Marks();
    var t := NumericText(n, upper, plus);
    DigitIsTight(n.whole[0]);
    DigitIsTight(MINUS);
    var last := if n.exp.ExpPart? then n.exp.digits else if n.frac != [] then n.frac else n.whole;
    assert AllDigits(last) && last != [];
    DigitIsTight(last[|last| - 1]);
    NumericLast(n, upper, plus, last);
  }

  lemma NumericLast(n: WellFormed, upper: bool, plus: bool, last: Text)
    requires last == if n.exp.ExpPart? then n.exp.digits else if n.frac != [] then n.frac else n.whole
    ensures last != [] && var t := NumericText(n, upper, plus); t != [] && t[|t| - 1] == last[|last| - 1]
    ensures NumericText(n, upper, plus)[0] == if n.neg then MINUS else n.whole[0]
  {
    hide T;
    Marks();
  }

  lemma {:induction false} ItemsEnd(items: seq<Item>)
    ensures var t := ItemsText(items); t != [] && t[|t| - 1] == CLOSE_BRACKET
    decreases |items|
  {
    hide DocText;
    assert T("]") == [CLOSE_BRACKET];
    if |items| > 1 { ItemsEnd(items[1..]); }
  }

  lemma {:induction false} EntriesEnd(es: seq<Entry>)
    ensures var t := EntriesText(es); t != [] && t[|t| - 1] == CLOSE_BRACE
    decreases |es|
  {
    hide EntryText;
    assert T("}") == [CLOSE_BRACE];
    if |es| > 1 { EntriesEnd(es[1..]); }
  }

  /** A line that holds one JSON text between spaces. */
  predicate LineOf(line: Text, before: Text, d: Doc, after: Text) {
    AllSpace(before) && AllSpace(after) && line == before + (DocText(d) + after)
  }

  /** It is read as what the text means. */
  lemma LineReads(line: Text, before: Text, d: Doc, after: Text)
    requires LineOf(line, before, d, after)
    ensures ReadLine(line) == Reading([Meaning(d)], 0)
  {
    hide Loads, DocText, Meaning, AllSpace, Strip, KeysDistinct;
    DocTight(d);
    StripTightened(before, DocText(d), after);
    LoadsDoc(false, [], d, []);
    assert [] + (DocText(d) + []) == DocText(d);
  }

  lemma BlankIsSpace(c: CodePoint)
    requires c in [0x20, 0x09, 0x0A, 0x0D]
    ensures Space(c)
  {
    SpacesListed(c);
  }

  lemma BlanksAreSpace(gap: Blanks)
    ensures AllSpace(gap)
  {
    hide IsSpace, Space;
    forall i | 0 <= i < |gap| ensures Space(gap[i]) {
      assert gap[i] in [0x20, 0x09, 0x0A, 0x0D];
      BlankIsSpace(gap[i]);
    }
  }

  /** And no other line is read as a record: it is damaged, or holds nothing but spaces. */
  lemma LineReadsOnly(line: Text) returns (before: Text, d: Doc, after: Text)
    requires ReadLine(line).records != []
    ensures LineOf(line, before, d, after) && ReadLine(line) == Reading([Meaning(d)], 0)
  {
    hide Loads, DocText, Meaning, StripFront, StripBack, IsSpace, Space;
    var a := FrontFound(line);
    var z := BackFound(StripFront(line));
    var b, e, c := DocOfLoads(false, Strip(line));
    BlanksAreSpace(b);
    BlanksAreSpace(c);
    before, d, after := a + b, e, c + z;
    assert line == a + ((b + (DocText(d) + c)) + z);
    assert line == before + (DocText(d) + after);
  }

  lemma OtherLines(line: Text)
    ensures ReadLine(line).records == [] ==> ReadLine(line) == if AllSpace(line) then NOTHING else Reading([], 1)
    ensures AllSpace(line) ==> ReadLine(line) == NOTHING
  {
    hide Loads, IsSpace, Space, StripFront, StripBack;
    var a := FrontFound(line);
    var z := BackFound(StripFront(line));
    if AllSpace(line) {
      FrontOff(line, []);
      assert line + [] == line;
      BackOff([], []);
    }
    if Strip(line) == [] { assert line == a + z; }
  }

  // ---------- a foreign line in a file ----------

  /** A line feed, a carriage return, and the two together each end one line. */
  lemma LineEnds(line: Text, end: Text, x: Text)
    requires NoBreaks(line) && end in [[0x0A], [0x0D, 0x0A], [0x0D]]
    requires end == [0x0D] ==> x == [] || x[0] != 0x0A
    ensures ReadAll(line + (end + x)) == ReadLine(line).Then(ReadAll(x))
  {
    hide ReadLine, FindBreak;
    var u := line + (end + x);
    assert end == [0x0A] || end == [0x0D, 0x0A] || end == [0x0D];
    NoBreakInside(line);
    NoBreak(line, end + x);
    EndBreaks(end, x);
    var i := |line|;
    assert u == line + end + x;
    assert u[..i] == line && u[i] == end[0] && u[|line + end|..] == x;
    assert |end| == 1 && x != [] ==> u[i + 1] == x[0];
    assert Lines(u) == [line] + Lines(x);
    ReadConcat([line], Lines(x));
    SingleLine(line);
  }

  lemma EndBreaks(end: Text, x: Text)
    requires end == [0x0A] || end == [0x0D, 0x0A] || end == [0x0D]
    ensures FindBreak(end + x) == 0
  {}

  predicate NoBreaks(line: Text) { forall i | 0 <= i < |line| :: !IsBreak(line[i]) }

  lemma ForeignText(t: Text, line: Text, before: Text, d: Doc, after: Text)
    requires (t == [] || t[|t| - 1] == NEWLINE) && LineOf(line, before, d, after) && NoBreaks(line)
    ensures ReadAll(t + (line + [NEWLINE])) == ReadAll(t).Then(Reading([Meaning(d)], 0))
  {
    hide LineOf, ReadLine, Meaning, Lines, IsBreak, ReadAll;
    ReadAllConcat(t, line + [NEWLINE]);
    LineReads(line, before, d, after);
    EmptyLine();
    OneLine(line);
  }

  /** Whole encoded texts decode one after the other. */
  lemma DecodeConcat(file: Bytes, t: Text, u: Text)
    requires DecodeUtf8(file) == Some(t) && SurrogateFree(u)
    ensures DecodeUtf8(file + Utf8(u)) == Some(t + u)
  {
    hide DecodeUtf8, Utf8, IsSurrogate;
    DecodeUtf8Iff(file, t);
    Utf8Concat(t, u);
    DecodeUtf8Iff(file + Utf8(u), t + u);
  }

  /** A line that any writer of JSON ended with a newline is read as what it means, after whatever
      whole lines were there. */
  lemma ForeignLine(file: Bytes, t: Text, line: Text, before: Text, d: Doc, after: Text)
    requires DecodeUtf8(file) == Some(t) && (t == [] || t[|t| - 1] == NEWLINE)
    requires LineOf(line, before, d, after) && SurrogateFree(line) && NoBreaks(line)
    ensures ReadFile(file).Some?
    ensures ReadFile(file + Utf8(line + [NEWLINE])) == Some(ReadFile(file).value.Then(Reading([Meaning(d)], 0)))
  {
    hide DecodeUtf8, Utf8, LineOf, ReadAll, Meaning, NoBreaks;
    NewlinePlain();
    DecodeConcat(file, t, line + [NEWLINE]);
    ForeignText(t, line, before, d, after);
  }

  lemma NewlinePlain()
    ensures !IsSurrogate(NEWLINE)
  {}

  lemma OneLine(line: Text)
    requires NoBreaks(line)
    ensures ReadAll(line + [NEWLINE]) == if line == [] then NOTHING else ReadLine(line)
  {
    hide ReadLine, FindBreak;
    var u := line + [NEWLINE];
    NoBreakInside(line);
    NoBreak(line, [NEWLINE]);
    NewlineBreaks();
    assert u[..|line|] == line && u[|line| + 1..] == [];
    NoLines();
    assert Lines(u) == [line] + Lines([]);
    SingleLine(line);
    EmptyLine();
  }

  lemma NewlineBreaks()
    ensures FindBreak([NEWLINE]) == 0
  {}

  lemma EmptyLine()
    ensures ReadLine([]) == NOTHING
  {}

  /** A record that json.dumps wrote with other separators is read as that record. */
  lemma SpacedRecordRead(repr: Repr, v: Value, file: Bytes, t: Text, line: Text, before: Text, d: Doc, after: Text)
    requires Writable(Plain(repr), v) && ReprLaw(repr) && DocText(Bare(d)) == Write(Plain(repr), v)
    requires DecodeUtf8(file) == Some(t) && (t == [] || t[|t| - 1] == NEWLINE)
    requires LineOf(line, before, d, after) && SurrogateFree(line) && NoBreaks(line)
    ensures ReadFile(file).Some?
    ensures ReadFile(file + Utf8(line + [NEWLINE])) == Some(ReadFile(file).value.Then(Reading([Wire(Plain(repr), v)], 0)))
  {
    hide DecodeUtf8, Utf8, LineOf, ReadFile, Meaning, Wire, Write, DocText, Respaced, ReprLaw, Loads, IsBreak, KeysDistinct;
    ForeignLine(file, t, line, before, d, after);
    SpacedLoads(false, Plain(repr), v, [], d, []);
    LoadsDoc(false, [], d, []);
  }

  // ---------- glued lines ----------

  /** After an object nothing but blanks may follow. */
  lemma NothingMayFollow(style: Style, v: Value, x: Text)
    requires v.Dict? && Writable(style, v) && ReprLaw(style.repr)
    ensures Loads(false, Write(style, v) + x) == if SkipWs(x) == [] then Some(Wire(style, v)) else None
  {
    hide Write, Wire, ParseValue, ReprLaw;
    WriteStart(style, v, x);
    ValueBack(false, style, v, x);
  }

  /** Two records on one line would be one damaged line: why append closes an open tail. */
  lemma GluedRecords(repr: Repr, v: Value, w: Value)
    requires v.Dict? && Writable(Plain(repr), v) && w.Dict? && Writable(Plain(repr), w) && ReprLaw(repr)
    ensures ReadLine(Write(Plain(repr), v) + Write(Plain(repr), w)) == Reading([], 1)
  {
    hide Write, Wire, Loads, ReprLaw, IsSpace, StripFront, StripBack;
    var a, b := Write(Plain(repr), v), Write(Plain(repr), w);
    ObjectEnds(Plain(repr), v);
    ObjectEnds(Plain(repr), w);
    BracesAreTight();
    StripTightened([], a + b, []);
    assert [] + (a + b + []) == a + b;
    NothingMayFollow(Plain(repr), v, b);
    BracesSkip(b);
  }

  lemma BracesAreTight()
    ensures !IsSpace(OPEN_BRACE) && !IsSpace(CLOSE_BRACE)
  {}

  lemma BracesSkip(t: Text)
    requires t != [] && t[0] == OPEN_BRACE
    ensures SkipWs(t) == t
  {}
}
