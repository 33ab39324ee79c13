/** The two compact serialisations: JCS, and json.dumps with ASCII output. Both write the same
    structure and differ in strings and numbers. */
module JsonWriter {
  import opened Wrappers
  import opened Text
  import opened Binary64
  import opened Numeral
  import opened Numbers
  import opened NumberLaws
  import opened Json
  import opened JsonParser

  datatype Style = Jcs(repr: Repr) | Plain(repr: Repr)

  // ---------- strings ----------

  function HexChar(d: nat): CodePoint
    requires d < 16
  {
    if d < 10 then 0x30 + d else 0x61 + (d - 10)
  }

  /** "\u%04x" % n. */
  function UnicodeEscape(n: CodePoint): (t: Text)
    requires n < 0x1_0000
    ensures |t| == 6
  {
    [BACKSLASH, LETTER_U, HexChar(n / 0x1000), HexChar(n / 0x100 % 0x10), HexChar(n / 0x10 % 0x10), HexChar(n % 0x10)]
  }

  /** The two-character escapes, common to both styles. */
  function ShortEscape(c: CodePoint): Option<CodePoint> {
    if c == QUOTE || c == BACKSLASH then Some(c)
    else if c == 0x08 then Some(0x62)
    else if c == 0x09 then Some(0x74)
    else if c == 0x0A then Some(0x6E)
    else if c == 0x0C then Some(0x66)
    else if c == 0x0D then Some(0x72)
    else None
  }

  function HighHalf(c: CodePoint): CodePoint
    requires 0x1_0000 <= c
  {
    0xD800 + (c - 0x1_0000) / 0x400
  }

  function LowHalf(c: CodePoint): CodePoint
    requires 0x1_0000 <= c
  {
    0xDC00 + (c - 0x1_0000) % 0x400
  }

  function EscapeChar(style: Style, c: CodePoint): (t: Text)
    ensures t != []
  {
    if ShortEscape(c).Some? then [BACKSLASH, ShortEscape(c).value]
    else if c < 0x20 then UnicodeEscape(c)
    else if style.Jcs? || c < 0x7F then [c]
    else if c < 0x1_0000 then UnicodeEscape(c)
    else UnicodeEscape(HighHalf(c)) + UnicodeEscape(LowHalf(c))
  }

  function Escape(style: Style, s: Text): Text {
    if s == [] then [] else EscapeChar(style, s[0]) + Escape(style, s[1..])
  }

  function Quoted(style: Style, s: Text): Text { [QUOTE] + (Escape(style, s) + [QUOTE]) }

  // ---------- numbers ----------

  function FloatToken(style: Style, x: Double): Text {
    if style.Jcs? then (if x.Finite? then FloatText(style.repr, x).value else [])
    else if x.NaN? then NAN_TEXT
    else if x.Infinite? then (if x.neg then MINUS_INFINITY_TEXT else INFINITY_TEXT)
    else style.repr(x)
  }

  // ---------- values ----------

  function Write(style: Style, v: Value): Text
    decreases v, 0
  {
    match v
    case Null => NULL_TEXT
    case Bool(b) => if b then TRUE_TEXT else FALSE_TEXT
    case Str(s) => Quoted(style, s)
    case Int(n) => StrOfInt(n)
    case Float(x) => FloatToken(style, x)
    case Dict(ms) => if ms == [] then [OPEN_BRACE, CLOSE_BRACE] else [OPEN_BRACE] + WriteMembers(style, ms)
    case List(xs) => if xs == [] then [OPEN_BRACKET, CLOSE_BRACKET] else [OPEN_BRACKET] + WriteItems(style, xs)
    case Tuple(xs) => if xs == [] then [OPEN_BRACKET, CLOSE_BRACKET] else [OPEN_BRACKET] + WriteItems(style, xs)
    case Opaque => []
  }

  /** Items and the closing bracket. */
  function WriteItems(style: Style, xs: seq<Value>): (t: Text)
    requires xs != []
    ensures t != []
    decreases xs, 1
  {
    Write(style, xs[0]) + (if |xs| == 1 then [CLOSE_BRACKET] else [COMMA] + WriteItems(style, xs[1..]))
  }

  function WriteMember(style: Style, m: Member): Text
    decreases m, 1
  {
    Quoted(style, m.key) + ([COLON] + Write(style, m.value))
  }

  /** Members and the closing brace. */
  function WriteMembers(style: Style, ms: seq<Member>): (t: Text)
    requires ms != []
    ensures t != []
    decreases ms, 1
  {
    WriteMember(style, ms[0]) + (if |ms| == 1 then [CLOSE_BRACE] else [COMMA] + WriteMembers(style, ms[1..]))
  }

  /** The values a style can serialise: JCS is written of normal forms, which hold no ints. */
  predicate Writable(style: Style, v: Value) {
    match v
    case Int(n) => style.Plain?
    case Float(x) => style.Plain? || x.Finite?
    case Dict(ms) => forall i | 0 <= i < |ms| :: Writable(style, ms[i].value)
    case List(xs) => forall i | 0 <= i < |xs| :: Writable(style, xs[i])
    case Tuple(xs) => style.Plain? && forall i | 0 <= i < |xs| :: Writable(style, xs[i])
    case Opaque => false
    case _ => true
  }

  /** json.dumps(v, separators=(",", ":"), ensure_ascii=True); None is TypeError. */
  function Dumps(repr: Repr, v: Value): Option<Text> {
    if Writable(Plain(repr), v) then Some(Write(Plain(repr), v)) else None
  }

  // ---------- what reading back gives ----------

  /** An escaped pair of lone surrogates reads back as one character. */
  function Joined(s: Text): Text {
    if s == [] then []
    else if 2 <= |s| && IsHigh(s[0]) && IsLow(s[1]) then [Pair(s[0], s[1])] + Joined(s[2..])
    else [s[0]] + Joined(s[1..])
  }

  function WireText(style: Style, s: Text): Text {
    if style.Jcs? then s else Joined(s)
  }

  function WireFloat(style: Style, x: Double): Value {
    if style.Plain? then Float(x)
    else
      var n := ScanNumber(FloatToken(style, x));
      if n.Some? then NumberValue(n.value.0) else Float(x)
  }

  function Wire(style: Style, v: Value): Value
    decreases v, 0
  {
    match v
    case Str(s) => Str(WireText(style, s))
    case Float(x) => WireFloat(style, x)
    case Dict(ms) => Dict(FromPairs(WireMembers(style, ms)))
    case List(xs) => List(WireItems(style, xs))
    case Tuple(xs) => List(WireItems(style, xs))
    case _ => v
  }

  function WireItems(style: Style, xs: seq<Value>): (r: seq<Value>)
    ensures |r| == |xs|
    ensures forall i | 0 <= i < |xs| :: r[i] == Wire(style, xs[i])
    decreases xs, 1
  {
    if xs == [] then [] else [Wire(style, xs[0])] + WireItems(style, xs[1..])
  }

  function WireMembers(style: Style, ms: seq<Member>): (r: seq<Member>)
    ensures |r| == |ms|
    ensures forall i | 0 <= i < |ms| :: r[i] == Member(WireText(style, ms[i].key), Wire(style, ms[i].value))
    decreases ms, 1
  {
    if ms == [] then []
    else [Member(WireText(style, ms[0].key), Wire(style, ms[0].value))] + WireMembers(style, ms[1..])
  }
}
