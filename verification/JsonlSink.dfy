/** The crash-tolerant JSONL sink: a file of bytes that complete and torn appends extend, and the
    reader that skips what does not parse and raises on what is not UTF-8. */
module JsonlSink {
  import opened Wrappers
  import opened Text
  import opened Encoding
  import opened Binary64
  import opened Numeral
  import opened Numbers
  import opened NumberLaws
  import opened Json
  import opened JsonParser
  import opened JsonWriter
  import opened RoundTrip
  import opened Prefixes

  const NEWLINE: CodePoint := 0x0A
  const RETURN: CodePoint := 0x0D

  // ---------- reading lines ----------

  predicate IsBreak(c: CodePoint) { c == NEWLINE || c == RETURN }

  /** First line break in t, or |t|. */
  function FindBreak(t: Text): (i: nat)
    ensures i <= |t| && (i < |t| ==> IsBreak(t[i])) && forall j | 0 <= j < i :: !IsBreak(t[j])
  {
    if t == [] || IsBreak(t[0]) then 0 else 1 + FindBreak(t[1..])
  }

  /** Iterating over a file opened in text mode: "\n", "\r" and "\r\n" all end a line. */
  function Lines(t: Text): seq<Text> {
    if t == [] then []
    else
      var i := FindBreak(t);
      if i == |t| then [t]
      else if t[i] == RETURN && i + 1 < |t| && t[i + 1] == NEWLINE then [t[..i]] + Lines(t[i + 2..])
      else [t[..i]] + Lines(t[i + 1..])
  }

  /** The records read and the number of damaged lines. */
  datatype Reading = Reading(records: seq<Value>, damaged: nat) {
    function Then(next: Reading): Reading { Reading(records + next.records, damaged + next.damaged) }
  }

  const NOTHING := Reading([], 0)

  function ReadLine(line: Text): Reading {
    var t := Strip(line);
    if t == [] then NOTHING
    else match Loads(false, t)
      case None => Reading([], 1)
      case Some(v) => Reading([v], 0)
  }

  function ReadLines(lines: seq<Text>): Reading {
    if lines == [] then NOTHING else ReadLine(lines[0]).Then(ReadLines(lines[1..]))
  }

  function ReadAll(file: Text): Reading { ReadLines(Lines(file)) }

  // ---------- appending ----------

  /** What append puts before the line, to close an unterminated tail. */
  function Closing(file: Text): Text {
    if file != [] && file[|file| - 1] != NEWLINE then [NEWLINE] else []
  }

  function Chunk(file: Text, line: Text): Text { Closing(file) + (line + [NEWLINE]) }

  // ---------- lemmas about lines ----------

  lemma {:induction false} ReadConcat(a: seq<Text>, b: seq<Text>)
    ensures ReadLines(a + b) == ReadLines(a).Then(ReadLines(b))
  {
    if a == [] {
      assert a + b == b;
    } else {
      hide ReadLine;
      assert (a + b)[1..] == a[1..] + b;
      ReadConcat(a[1..], b);
      ThenAssociates(ReadLine(a[0]), ReadLine(a[0]).Then(ReadLines(a[1..])), ReadLines(b));
    }
  }

  lemma {:induction false} FindBreakConcat(t: Text, x: Text)
    requires FindBreak(t) < |t|
    ensures FindBreak(t + x) == FindBreak(t)
  {
    if !IsBreak(t[0]) {
      assert (t + x)[1..] == t[1..] + x;
      FindBreakConcat(t[1..], x);
    }
  }

  /** How far the first line of t, with its break, reaches. */
  function FirstLine(t: Text): (n: nat)
    requires FindBreak(t) < |t|
    ensures 0 < n <= |t|
  {
    var i := FindBreak(t);
    if t[i] == RETURN && i + 1 < |t| && t[i + 1] == NEWLINE then i + 2 else i + 1
  }

  lemma NoLines()
    ensures Lines([]) == [] && ReadLines([]) == NOTHING
  {}

  lemma FirstLineSplits(t: Text)
    requires FindBreak(t) < |t|
    ensures Lines(t) == [t[..FindBreak(t)]] + Lines(t[FirstLine(t)..])
  {}

  /** Text that ends in a newline, or is empty, does not run into what follows it. */
  lemma {:induction false} LinesConcat(t: Text, x: Text)
    requires t == [] || t[|t| - 1] == NEWLINE
    ensures Lines(t + x) == Lines(t) + Lines(x)
    decreases |t|
  {
    hide FindBreak, Lines, FirstLine;
    if t == [] {
      assert t + x == x;
      NoLines();
    } else {
      NewlineFound(t);
      FirstLineConcat(t, x);
      FirstLineSplits(t);
      FirstLineSplits(t + x);
      var n, first := FirstLine(t), t[..FindBreak(t)];
      assert (t + x)[n..] == t[n..] + x && (t + x)[..FindBreak(t)] == first;
      LinesConcat(t[n..], x);
      assert [first] + (Lines(t[n..]) + Lines(x)) == [first] + Lines(t[n..]) + Lines(x);
    }
  }

  lemma FirstLineConcat(t: Text, x: Text)
    requires t != [] && t[|t| - 1] == NEWLINE && FindBreak(t) < |t|
    ensures FindBreak(t + x) == FindBreak(t) && FirstLine(t + x) == FirstLine(t)
  {
    FindBreakConcat(t, x);
    assert forall i | 0 <= i < |t| :: (t + x)[i] == t[i];
  }

  lemma {:induction false} NewlineFound(t: Text)
    requires t != [] && IsBreak(t[|t| - 1])
    ensures FindBreak(t) < |t|
  {
    if !IsBreak(t[0]) { NewlineFound(t[1..]); }
  }

  /** Closing an unterminated tail changes no line. */
  lemma {:induction false} LinesClosed(t: Text)
    requires t != [] && t[|t| - 1] != NEWLINE
    ensures Lines(t + [NEWLINE]) == Lines(t)
    decreases |t|
  {
    hide FindBreak, Lines;
    var u := t + [NEWLINE];
    var i := FindBreak(t);
    if i == |t| {
      OneClosed(t);
    } else {
      FindBreakConcat(t, [NEWLINE]);
      FirstLineSplits(t);
      FirstLineSplits(u);
      assert u[..i] == t[..i];
      if t[i] == RETURN && i + 1 == |t| {
        assert u[i + 2..] == [] && t[i + 1..] == [];
      } else {
        var n := FirstLine(t);
        assert u[n..] == t[n..] + [NEWLINE];
        LinesClosed(t[n..]);
      }
    }
  }

  lemma OneClosed(t: Text)
    requires t != [] && FindBreak(t) == |t|
    ensures Lines(t + [NEWLINE]) == Lines(t)
  {
    var u, i := t + [NEWLINE], |t|;
    NoBreak(t, [NEWLINE]);
    assert u[..i] == t && u[i + 1..] == [];
    assert Lines([]) == [];
  }

  lemma {:induction false} NoBreak(t: Text, x: Text)
    requires FindBreak(t) == |t|
    ensures FindBreak(t + x) == |t| + FindBreak(x)
  {
    if t == [] {
      assert t + x == x;
    } else {
      assert (t + x)[1..] == t[1..] + x;
      NoBreak(t[1..], x);
    }
  }

  lemma {:induction false} NoBreakInside(t: Text)
    requires forall i | 0 <= i < |t| :: !IsBreak(t[i])
    ensures FindBreak(t) == |t|
  {
    if t != [] { NoBreakInside(t[1..]); }
  }

  lemma ReadClosed(file: Text)
    ensures ReadAll(file + Closing(file)) == ReadAll(file)
    ensures var c := file + Closing(file); c == [] || c[|c| - 1] == NEWLINE
  {
    if Closing(file) == [] {
      assert file + [] == file;
    } else {
      LinesClosed(file);
    }
  }

  // ---------- serialised records are single printable lines ----------

  lemma PrintableConcat(a: Text, b: Text)
    requires Printable(a) && Printable(b)
    ensures Printable(a + b)
  {}

  lemma {:induction false} EscapePrintable(style: Style, s: Text)
    requires style.Plain?
    ensures Printable(Escape(style, s))
  {
    if s != [] {
      EscapePrintable(style, s[1..]);
      PrintableConcat(EscapeChar(style, s[0]), Escape(style, s[1..]));
    }
  }

  lemma SpellPrintable(n: Numeral)
    requires n.WellFormed()
    ensures Printable(Spell(n))
  {}

  lemma LeafPrintable(style: Style, v: Value)
    requires style.Plain? && Writable(style, v) && ReprLaw(style.repr) && IsLeaf(v)
    ensures Printable(Write(style, v))
  {
    if v.Int? {
      assert Printable(StrOfInt(v.n));
    } else if v.Float? && v.x.Finite? {
      hide Numeral.Magnitude, Round, ScanNumber;
      assert ReprOk(v.x, style.repr(v.x));
      SpellPrintable(Read(style.repr(v.x)));
    }
  }

  lemma {:induction false} WritePrintable(style: Style, v: Value)
    requires style.Plain? && Writable(style, v) && ReprLaw(style.repr)
    ensures Printable(Write(style, v))
    decreases v, 0
  {
    hide ReprLaw, WriteItems, WriteMembers;
    if IsLeaf(v) {
      LeafPrintable(style, v);
    } else if v.Str? {
      EscapePrintable(style, v.s);
    } else if v.Dict? {
      if v.members != [] { MembersPrintable(style, v.members); }
    } else if v.items != [] {
      ItemsPrintable(style, v.items);
    }
  }

  lemma {:induction false} ItemsPrintable(style: Style, xs: seq<Value>)
    requires style.Plain? && ReprLaw(style.repr) && xs != []
    requires forall i | 0 <= i < |xs| :: Writable(style, xs[i])
    ensures Printable(WriteItems(style, xs))
    decreases xs, 1
  {
    hide Write, ReprLaw;
    WritePrintable(style, xs[0]);
    if |xs| > 1 { ItemsPrintable(style, xs[1..]); }
  }

  lemma {:induction false} MembersPrintable(style: Style, ms: seq<Member>)
    requires style.Plain? && ReprLaw(style.repr) && ms != []
    requires forall i | 0 <= i < |ms| :: Writable(style, ms[i].value)
    ensures Printable(WriteMembers(style, ms))
    decreases ms, 1
  {
    hide Write, ReprLaw;
    EscapePrintable(style, ms[0].key);
    WritePrintable(style, ms[0].value);
    if |ms| > 1 { MembersPrintable(style, ms[1..]); }
  }

  lemma ObjectEnds(style: Style, v: Value)
    requires v.Dict?
    ensures var t := Write(style, v); t != [] && t[0] == OPEN_BRACE && t[|t| - 1] == CLOSE_BRACE
  {
    if v.members != [] { MembersEnd(style, v.members); }
  }

  lemma {:induction false} MembersEnd(style: Style, ms: seq<Member>)
    requires ms != []
    ensures var t := WriteMembers(style, ms); t[|t| - 1] == CLOSE_BRACE
  {
    if |ms| > 1 { MembersEnd(style, ms[1..]); }
  }

  // ---------- what part of a line that reached the file counts for ----------

  /** The reading of the first k characters of a record's line. */
  function Reached(repr: Repr, v: Value, k: nat): Reading {
    if k == 0 then NOTHING
    else if k < |Write(Plain(repr), v)| then Reading([], 1)
    else Reading([Wire(Plain(repr), v)], 0)
  }

  lemma {:induction false} StripBackNonempty(t: Text)
    requires t != [] && !IsSpace(t[0])
    ensures StripBack(t) != [] && Strip(t) == StripBack(t) && (!IsSpace(t[|t| - 1]) ==> Strip(t) == t)
  {
    if |t| > 1 { StripBackNonempty(t[..|t| - 1]); }
  }

  /** A whole serialised record is read as that record; a nonempty strict fragment is one
      damaged line. */
  lemma FragmentRead(repr: Repr, v: Value, k: nat)
    requires v.Dict? && Writable(Plain(repr), v) && ReprLaw(repr) && k <= |Write(Plain(repr), v)|
    ensures ReadAll(Write(Plain(repr), v)[..k]) == Reached(repr, v, k)
  {
    hide Write, Wire, Loads, Strip, StripBack, ReprLaw;
    var t := Write(Plain(repr), v);
    if k > 0 {
      var p := t[..k];
      WritePrintable(Plain(repr), v);
      NoBreakInside(p);
      assert Lines(p) == [p];
      assert ReadAll(p) == ReadLine(p) by { SingleLine(p); }
      ObjectEnds(Plain(repr), v);
      StripBackNonempty(p);
      if k < |t| {
        assert Strip(p) <= p < t;
        NoPrefixParses(Plain(repr), v, Strip(p));
      } else {
        assert p == t;
        LoadsBack(false, Plain(repr), v);
      }
    }
  }

  lemma SingleLine(p: Text)
    ensures ReadLines([p]) == ReadLine(p)
  {
    assert ReadLines([]) == NOTHING;
  }

  /** Whatever part of a chunk reaches the file, the earlier lines read as before and the part
      counts for itself. */
  lemma ChunkRead(repr: Repr, file: Text, v: Value, j: nat)
    requires v.Dict? && Writable(Plain(repr), v) && ReprLaw(repr)
    requires j <= |Chunk(file, Write(Plain(repr), v))|
    ensures ReadAll(file + Chunk(file, Write(Plain(repr), v))[..j])
         == ReadAll(file).Then(Reached(repr, v, if j < |Closing(file)| then 0 else j - |Closing(file)|))
  {
    hide Write, Wire, ReadAll, Reached, ReprLaw;
    var t, c := Write(Plain(repr), v), Closing(file);
    var p := Chunk(file, t)[..j];
    ReadClosed(file);
    if j < |c| {
      assert file + p == file;
      NoneReached(repr, v);
      ThenNothing();
    } else {
      var k := j - |c|;
      var closed := file + c;
      var part := (t + [NEWLINE])[..k];
      assert file + p == closed + part;
      assert ReadAll(closed + part) == ReadAll(closed).Then(ReadAll(part)) by { ReadAllConcat(closed, part); }
      if k <= |t| {
        assert part == t[..k];
        FragmentRead(repr, v, k);
      } else {
        assert part == t + [NEWLINE];
        ObjectEnds(Plain(repr), v);
        ReadClosed(t);
        assert t[..|t|] == t;
        FragmentRead(repr, v, |t|);
        ReachedWhole(repr, v, k);
      }
    }
  }

  lemma NoneReached(repr: Repr, v: Value)
    ensures Reached(repr, v, 0) == NOTHING
  {}

  lemma ReachedWhole(repr: Repr, v: Value, k: nat)
    requires v.Dict? && |Write(Plain(repr), v)| <= k
    ensures Reached(repr, v, k) == Reached(repr, v, |Write(Plain(repr), v)|)
  {
    ObjectEnds(Plain(repr), v);
  }

  lemma ReadAllConcat(t: Text, x: Text)
    requires t == [] || t[|t| - 1] == NEWLINE
    ensures ReadAll(t + x) == ReadAll(t).Then(ReadAll(x))
  {
    LinesConcat(t, x);
    ReadConcat(Lines(t), Lines(x));
  }

  // ---------- the file's bytes ----------

  /** What append puts before the line, on the bytes of any file. */
  function ClosingBytes(file: Bytes): Bytes {
    if file != [] && file[|file| - 1] != 0x0A then [0x0A] else []
  }

  /** The bytes of one append. The line is ASCII, so its ASCII encoding is its UTF-8 encoding. */
  function ChunkBytes(file: Bytes, line: Text): Bytes { ClosingBytes(file) + Utf8(line + [NEWLINE]) }

  /** all() on a file's bytes; None is the UnicodeDecodeError it lets through. */
  function ReadFile(file: Bytes): Option<Reading> {
    var t :- DecodeUtf8(file);
    Some(ReadAll(t))
  }

  /** all() raises exactly on a file that is the encoding of no surrogate-free text. */
  lemma ReadFileRaises(file: Bytes)
    ensures ReadFile(file).None? <==> !exists t: Text :: SurrogateFree(t) && Utf8(t) == file
  {
    hide DecodeUtf8, ReadAll;
    DecodeUtf8Refuses(file);
  }

  /** It does, against what is written about it: one byte is enough. */
  lemma BadByteRaises()
    ensures ReadFile([0xFF]).None?
  {}

  lemma ClosingAgrees(file: Bytes, t: Text)
    requires DecodeUtf8(file) == Some(t)
    ensures ClosingBytes(file) == Utf8(Closing(t))
  {
    hide DecodeUtf8, EncodeChar;
    DecodeUtf8Iff(file, t);
    Utf8Ascii([NEWLINE]);
    if t != [] {
      var m := |t| - 1;
      assert t == t[..m] + [t[m]];
      Utf8Concat(t[..m], [t[m]]);
      Utf8One(t[m]);
      LastByte(t[m]);
      NewlineByte();
      var e := EncodeChar(t[m]);
      assert file[|file| - 1] == e[|e| - 1];
    }
  }

  lemma NewlineByte()
    ensures EncodeChar(NEWLINE) == [0x0A]
  {}

  lemma {:induction false} AsciiPrefix(t: Text, j: nat)
    requires IsAscii(t) && j <= |t|
    ensures |Utf8(t)| == |t| && Utf8(t)[..j] == Utf8(t[..j])
  {
    Utf8Ascii(t);
    Utf8Ascii(t[..j]);
  }

  /** The chunk as text: a newline in place of the closing byte. */
  lemma ChunkIsAscii(repr: Repr, file: Bytes, v: Value) returns (c: Text)
    requires Writable(Plain(repr), v) && ReprLaw(repr)
    ensures IsAscii(c) && ChunkBytes(file, Write(Plain(repr), v)) == Utf8(c)
    ensures forall t: Text | Utf8(Closing(t)) == ClosingBytes(file) :: c == Chunk(t, Write(Plain(repr), v))
  {
    hide Write, ReprLaw, EncodeChar;
    var line := Write(Plain(repr), v);
    WritePrintable(Plain(repr), v);
    var closing: Text := if ClosingBytes(file) == [] then [] else [NEWLINE];
    c := closing + (line + [NEWLINE]);
    Utf8Concat(closing, line + [NEWLINE]);
    Utf8One(NEWLINE);
    NewlineByte();
  }

  /** Whatever part of an append reaches the file, whatever bytes were there: all() raises after it
      exactly when it raised before, and otherwise reads what it read before and then the part. */
  lemma FileChunkRead(repr: Repr, file: Bytes, v: Value, j: nat)
    requires v.Dict? && Writable(Plain(repr), v) && ReprLaw(repr)
    requires j <= |ChunkBytes(file, Write(Plain(repr), v))|
    ensures ReadFile(file + ChunkBytes(file, Write(Plain(repr), v))[..j]) ==
      if ReadFile(file).None? then None
      else
        var k := j - |ClosingBytes(file)|;
        Some(ReadFile(file).value.Then(Reached(repr, v, if k < 0 then 0 else k)))
  {
    hide Write, ReadAll, Reached, ReprLaw, DecodeUtf8, Utf8, ChunkBytes, Chunk, Closing, ClosingBytes;
    var c := ChunkIsAscii(repr, file, v);
    Utf8Ascii(c);
    AsciiPrefix(c, j);
    AsciiAppended(file, c[..j]);
    if DecodeUtf8(file).Some? {
      var t := DecodeUtf8(file).value;
      ClosingAgrees(file, t);
      ClosingLength(t);
      ChunkRead(repr, t, v, j);
    }
  }

  lemma ClosingLength(t: Text)
    ensures |Utf8(Closing(t))| == |Closing(t)|
  {
    Utf8Ascii(Closing(t));
  }

  // ---------- runs ----------

  /** One append: how many bytes of its chunk reached the file before the writer died; all of them,
      when it did not. */
  datatype Attempt = Complete(record: Value) | Torn(record: Value, reached: nat)

  predicate Possible(repr: Repr, file: Bytes, w: Attempt) {
    && w.record.Dict? && Writable(Plain(repr), w.record)
    && (w.Torn? ==> w.reached < |ChunkBytes(file, Write(Plain(repr), w.record))|)
  }

  function After(repr: Repr, file: Bytes, w: Attempt): Bytes
    requires Possible(repr, file, w)
  {
    var c := ChunkBytes(file, Write(Plain(repr), w.record));
    file + (if w.Torn? then c[..w.reached] else c)
  }

  /** Every write of the run is possible where it happens. */
  predicate Run(repr: Repr, file: Bytes, ws: seq<Attempt>)
    decreases ws
  {
    ws == [] || (Possible(repr, file, ws[0]) && Run(repr, After(repr, file, ws[0]), ws[1..]))
  }

  function Final(repr: Repr, file: Bytes, ws: seq<Attempt>): Bytes
    requires Run(repr, file, ws)
    decreases ws
  {
    if ws == [] then file else Final(repr, After(repr, file, ws[0]), ws[1..])
  }

  /** How much of the record's own text an attempt got into the file. */
  function Got(repr: Repr, file: Bytes, w: Attempt): nat {
    if w.Complete? then |Write(Plain(repr), w.record)|
    else if w.reached < |ClosingBytes(file)| then 0
    else w.reached - |ClosingBytes(file)|
  }

  /** A record for each write whose whole text reached the file, a damaged line for each
      nonempty strict fragment of one. */
  function Outcome(repr: Repr, file: Bytes, ws: seq<Attempt>): Reading
    requires Run(repr, file, ws)
    decreases ws
  {
    if ws == [] then NOTHING
    else Reached(repr, ws[0].record, Got(repr, file, ws[0])).Then(Outcome(repr, After(repr, file, ws[0]), ws[1..]))
  }

  lemma ChunkLength(repr: Repr, file: Bytes, v: Value)
    requires Writable(Plain(repr), v) && ReprLaw(repr)
    ensures |ChunkBytes(file, Write(Plain(repr), v))| == |ClosingBytes(file)| + |Write(Plain(repr), v)| + 1
  {
    hide Write, ReprLaw;
    WritePrintable(Plain(repr), v);
    Utf8Ascii(Write(Plain(repr), v) + [NEWLINE]);
  }

  /** One attempt, complete or torn. */
  lemma AttemptRead(repr: Repr, file: Bytes, w: Attempt)
    requires ReprLaw(repr) && Possible(repr, file, w)
    ensures ReadFile(After(repr, file, w)) ==
      if ReadFile(file).None? then None
      else Some(ReadFile(file).value.Then(Reached(repr, w.record, Got(repr, file, w))))
  {
    hide Write, ReadFile, Reached, ReprLaw, ChunkBytes, ClosingBytes, Writable;
    var c := ChunkBytes(file, Write(Plain(repr), w.record));
    var j := if w.Complete? then |c| else w.reached;
    assert c[..|c|] == c;
    FileChunkRead(repr, file, w.record, j);
    if w.Complete? {
      ChunkLength(repr, file, w.record);
      ReachedWhole(repr, w.record, |c| - |ClosingBytes(file)|);
    }
  }

  /** Over every run of complete and torn appends, from a file of any bytes, all() raises at the end
      exactly when it raised at the start, and otherwise returns what was there and then exactly the
      records whose text reached the file, in order. */
  lemma {:induction false} RunReads(repr: Repr, file: Bytes, ws: seq<Attempt>)
    requires ReprLaw(repr) && Run(repr, file, ws)
    ensures ReadFile(Final(repr, file, ws)) ==
      if ReadFile(file).None? then None else Some(ReadFile(file).value.Then(Outcome(repr, file, ws)))
    decreases ws
  {
    hide Write, ReadFile, Reached, ReprLaw, Possible, After, Got;
    if ws == [] {
      ThenNothing();
    } else {
      AttemptRead(repr, file, ws[0]);
      var next := After(repr, file, ws[0]);
      RunReads(repr, next, ws[1..]);
      if ReadFile(file).Some? {
        ThenAssociates(ReadFile(file).value, ReadFile(next).value, Outcome(repr, next, ws[1..]));
      }
    }
  }

  lemma ThenNothing()
    ensures forall r: Reading :: r.Then(NOTHING) == r
  {
    forall r: Reading ensures r.Then(NOTHING) == r {
      assert r.records + [] == r.records;
    }
  }

  lemma ThenAssociates(a: Reading, b: Reading, c: Reading)
    ensures forall r: Reading :: b == a.Then(r) ==> b.Then(c) == a.Then(r.Then(c))
  {
    forall r: Reading | b == a.Then(r) ensures b.Then(c) == a.Then(r.Then(c)) {
      assert (a.records + r.records) + c.records == a.records + (r.records + c.records);
    }
  }

  /** A file that only this sink wrote never makes all() raise. */
  lemma OwnFileReads(repr: Repr, ws: seq<Attempt>)
    requires ReprLaw(repr) && Run(repr, [], ws)
    ensures ReadFile(Final(repr, [], ws)) == Some(Outcome(repr, [], ws))
  {
    hide ReadFile, Outcome, Final, Run, ReprLaw;
    RunReads(repr, [], ws);
    EmptyFile();
    var o := Outcome(repr, [], ws);
    assert [] + o.records == o.records;
  }

  lemma EmptyFile()
    ensures ReadFile([]) == Some(NOTHING)
  {
    NoLines();
  }

  /** One bad byte makes the whole history unreadable, and no run of appends ever repairs it. */
  lemma BadByteStays(repr: Repr, history: Bytes, ws: seq<Attempt>)
    requires ReprLaw(repr) && Run(repr, history + [0xFF], ws)
    ensures ReadFile(Final(repr, history + [0xFF], ws)).None?
  {
    hide ReprLaw, ReadAll;
    RunReads(repr, history + [0xFF], ws);
    EndsBadly(history);
  }

  lemma EndsBadly(history: Bytes)
    ensures DecodeUtf8(history + [0xFF]).None?
  {
    var file := history + [0xFF];
    if DecodeUtf8(file).Some? {
      var t := DecodeUtf8(file).value;
      DecodeUtf8Iff(file, t);
      NoSuchByte(t, |file| - 1);
    }
  }

  /** 0xFF occurs in no encoding. */
  lemma {:induction false} NoSuchByte(t: Text, i: nat)
    requires i < |Utf8(t)|
    ensures Utf8(t)[i] != 0xFF
  {
    var n := |EncodeChar(t[0])|;
    if i < n { CharBytes(t[0]); } else { NoSuchByte(t[1..], i - n); }
  }

  lemma CharBytes(c: CodePoint)
    ensures 0xFF !in EncodeChar(c)
  {}

  // ---------- the sink ----------

  class Sink {
    /** None until the file exists. */
    var file: Option<Bytes>
    var damagedLines: nat

    constructor ()
      ensures file == None && damagedLines == 0
    {
      file, damagedLines := None, 0;
    }

    function Content(): Bytes
      reads this
    {
      if file.None? then [] else file.value
    }

    /** False is the TypeError of json.dumps, raised before the file is opened. */
    method Append(repr: Repr, record: Value) returns (ok: bool)
      modifies this`file
      ensures ok == Writable(Plain(repr), record)
      ensures !ok ==> file == old(file)
      ensures ok ==> file.Some? && Content() == old(Content()) + ChunkBytes(old(Content()), Write(Plain(repr), record))
    {
      hide Write, Writable, Utf8;
      var dumped := Dumps(repr, record);
      if dumped.None? {
        return false;
      }
      ghost var before := Content();
      var line := Utf8(dumped.value + [NEWLINE]);
      var f := Content();
      if f != [] && f[|f| - 1] != 0x0A {
        f := f + [0x0A];
      }
      assert f == before + ClosingBytes(before);
      assert f + line == before + ChunkBytes(before, dumped.value);
      file := Some(f + line);
      ok := true;
    }

    /** Read every line that parses; count the others. None is the exception, which leaves the
        count of the last call in place. */
    method All() returns (result: Option<seq<Value>>)
      modifies this`damagedLines
      ensures result.Some? <==> ReadFile(Content()).Some?
      ensures result.Some? ==> Reading(result.value, damagedLines) == ReadFile(Content()).value
      ensures result.None? ==> damagedLines == old(damagedLines)
    {
      hide ReadLines, Lines, Loads, Strip, DecodeUtf8;
      var text := DecodeUtf8(Content());
      if text.None? {
        return None;
      }
      var out: seq<Value> := [];
      var damaged := 0;
      var lines := Lines(text.value);
      assert lines[..0] == [];
      NoLines();
      for i := 0 to |lines|
        invariant Reading(out, damaged) == ReadLines(lines[..i])
      {
        assert lines[..i + 1] == lines[..i] + [lines[i]];
        ReadConcat(lines[..i], [lines[i]]);
        SingleLine(lines[i]);
        var line := Strip(lines[i]);
        if line == [] {
          continue;
        }
        var v := Loads(false, line);
        if v.Some? {
          out := out + [v.value];
        } else {
          damaged := damaged + 1;
        }
      }
      assert lines[..|lines|] == lines;
      damagedLines := damaged;
      return Some(out);
    }
  }

  /** append then all is all then the record, with the damage count unchanged; after an append all
      raises exactly when it raised before. */
  method AppendThenAll(repr: Repr, sink: Sink, record: Value)
    returns (before: Option<seq<Value>>, after: Option<seq<Value>>)
    requires ReprLaw(repr) && record.Dict? && Writable(Plain(repr), record)
    modifies sink
    ensures before.Some? <==> ReadFile(old(sink.Content())).Some?
    ensures after.Some? <==> before.Some?
    ensures before.Some? ==>
      after.value == before.value + [Wire(Plain(repr), record)]
    ensures before.Some? ==> Reading(before.value, sink.damagedLines) == ReadFile(old(sink.Content())).value
    ensures after.Some? <==> ReadFile(sink.Content()).Some?
    ensures after.Some? ==> Reading(after.value, sink.damagedLines) == ReadFile(sink.Content()).value
    ensures before.None? ==> sink.damagedLines == old(sink.damagedLines)
  {
    hide Write, Wire, ReadFile, ReprLaw, Writable, ChunkBytes;
    before := sink.All();
    var file := sink.Content();
    var ok := sink.Append(repr, record);
    AttemptRead(repr, file, Complete(record));
    ObjectEnds(Plain(repr), record);
    after := sink.All();
  }
}
