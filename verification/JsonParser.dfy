/** Python's json.loads on text: recursive descent over the code points. */
module JsonParser {
  import opened Wrappers
  import opened Text
  import opened Binary64
  import opened Numeral
  import opened Numbers
  import opened NumberLaws
  import opened Json

  const QUOTE: CodePoint := 0x22
  const BACKSLASH: CodePoint := 0x5C
  const COMMA: CodePoint := 0x2C
  const COLON: CodePoint := 0x3A
  const OPEN_BRACKET: CodePoint := 0x5B
  const CLOSE_BRACKET: CodePoint := 0x5D
  const OPEN_BRACE: CodePoint := 0x7B
  const CLOSE_BRACE: CodePoint := 0x7D
  const LETTER_U: CodePoint := 0x75
  const BYTE_ORDER_MARK: CodePoint := 0xFEFF

  // null, true, false, NaN, Infinity, -Infinity
  const NULL_TEXT: Text := [0x6E, 0x75, 0x6C, 0x6C]
  const TRUE_TEXT: Text := [0x74, 0x72, 0x75, 0x65]
  const FALSE_TEXT: Text := [0x66, 0x61, 0x6C, 0x73, 0x65]
  const NAN_TEXT: Text := [0x4E, 0x61, 0x4E]
  const INFINITY_TEXT: Text := [0x49, 0x6E, 0x66, 0x69, 0x6E, 0x69, 0x74, 0x79]
  const MINUS_INFINITY_TEXT: Text := [0x2D, 0x49, 0x6E, 0x66, 0x69, 0x6E, 0x69, 0x74, 0x79]

  predicate IsWs(c: CodePoint) { c == 0x20 || c == 0x09 || c == 0x0A || c == 0x0D }

  function SkipWs(t: Text): (r: Text)
    ensures |r| <= |t| && (r != [] ==> !IsWs(r[0]))
    ensures t != [] && !IsWs(t[0]) ==> r == t
  {
    if t != [] && IsWs(t[0]) then SkipWs(t[1..]) else t
  }

  // ---------- strings ----------

  function HexDigit(c: CodePoint): (d: Option<nat>)
    ensures d.Some? ==> d.value < 16
  {
    if 0x30 <= c <= 0x39 then Some(c - 0x30)
    else if 0x61 <= c <= 0x66 then Some(c - 0x61 + 10)
    else if 0x41 <= c <= 0x46 then Some(c - 0x41 + 10)
    else None
  }

  /** The four hexadecimal digits t starts with. */
  function Hex4(t: Text): (n: Option<CodePoint>)
    ensures n.Some? ==> 4 <= |t| && n.value < 0x1_0000
  {
    if |t| < 4 then None
    else
      var a :- HexDigit(t[0]);
      var b :- HexDigit(t[1]);
      var c :- HexDigit(t[2]);
      var d :- HexDigit(t[3]);
      Some(0x1000 * a + 0x100 * b + 0x10 * c + d)
  }

  function Unescape(e: CodePoint): Option<CodePoint> {
    if e == QUOTE || e == BACKSLASH || e == 0x2F then Some(e)
    else if e == 0x62 then Some(0x08)
    else if e == 0x66 then Some(0x0C)
    else if e == 0x6E then Some(0x0A)
    else if e == 0x72 then Some(0x0D)
    else if e == 0x74 then Some(0x09)
    else None
  }

  predicate StartsUnicodeEscape(t: Text) { 2 <= |t| && t[0] == BACKSLASH && t[1] == LETTER_U }

  function Pair(high: CodePoint, low: CodePoint): CodePoint
    requires IsHigh(high) && IsLow(low)
  {
    0x1_0000 + 0x400 * (high - 0xD800) + (low - 0xDC00)
  }

  /** One character of a string body: the character and what follows it. A high surrogate
      escape takes the low surrogate escape after it along. */
  function ParseChar(t: Text): (r: Option<(CodePoint, Text)>)
    ensures r.Some? ==> |r.value.1| < |t|
  {
    if t == [] || t[0] == QUOTE || t[0] < 0x20 then None
    else if t[0] != BACKSLASH then Some((t[0], t[1..]))
    else if |t| < 2 then None
    else if t[1] != LETTER_U then
      var c :- Unescape(t[1]);
      Some((c, t[2..]))
    else
      var u :- Hex4(t[2..]);
      if IsHigh(u) && StartsUnicodeEscape(t[6..]) then
        var v :- Hex4(t[8..]);
        if IsLow(v) then Some((Pair(u, v), t[12..])) else Some((u, t[6..]))
      else Some((u, t[6..]))
  }

  /** A string after its opening quote. */
  function ParseString(t: Text): (r: Option<(Text, Text)>)
    ensures r.Some? ==> |r.value.1| < |t|
    decreases |t|
  {
    if t != [] && t[0] == QUOTE then Some(([], t[1..]))
    else
      var (c, t1) :- ParseChar(t);
      var (s, rest) :- ParseString(t1);
      Some(([c] + s, rest))
  }

  // ---------- values ----------

  /** Conversion of a number literal. */
  function NumberValue(n: Numeral): Value
    requires n.WellFormed()
  {
    match NumOf(n)
    case IntNum(k) => Int(k)
    case FloatNum(x) => Float(x)
  }

  function ParseNumber(t: Text): (r: Option<(Value, Text)>)
    ensures r.Some? ==> |r.value.1| < |t|
  {
    var (n, rest) :- ScanNumber(t);
    Some((NumberValue(n), rest))
  }

  function ParseLiteral(t: Text): (r: Option<(Value, Text)>)
    ensures r.Some? ==> |r.value.1| < |t|
  {
    if NULL_TEXT <= t then Some((Null, t[4..]))
    else if TRUE_TEXT <= t then Some((Bool(true), t[4..]))
    else if FALSE_TEXT <= t then Some((Bool(false), t[5..]))
    else if NAN_TEXT <= t then Some((Float(NaN), t[3..]))
    else if INFINITY_TEXT <= t then Some((Float(Infinite(false)), t[8..]))
    else if MINUS_INFINITY_TEXT <= t then Some((Float(Infinite(true)), t[9..]))
    else ParseNumber(t)
  }

  /** A value at the start of t. With unique set, an object that repeats a key is refused;
      otherwise its last occurrence counts. */
  function ParseValue(unique: bool, t: Text): (r: Option<(Value, Text)>)
    ensures r.Some? ==> |r.value.1| < |t|
    decreases |t|, 1
  {
    if t == [] then None
    else if t[0] == QUOTE then
      var (s, rest) :- ParseString(t[1..]);
      Some((Str(s), rest))
    else if t[0] == OPEN_BRACKET then
      var t1 := SkipWs(t[1..]);
      if t1 != [] && t1[0] == CLOSE_BRACKET then Some((List([]), t1[1..]))
      else
        var (xs, rest) :- ParseItems(unique, t1);
        Some((List(xs), rest))
    else if t[0] == OPEN_BRACE then
      var t1 := SkipWs(t[1..]);
      if t1 != [] && t1[0] == CLOSE_BRACE then Some((Dict([]), t1[1..]))
      else
        var (ps, rest) :- ParseMembers(unique, t1);
        if unique && !UniqueKeys(ps) then None
        else Some((Dict(FromPairs(ps)), rest))
    else ParseLiteral(t)
  }

  /** Array items up to and including the closing bracket. */
  function ParseItems(unique: bool, t: Text): (r: Option<(seq<Value>, Text)>)
    ensures r.Some? ==> |r.value.1| < |t|
    decreases |t|, 2
  {
    var (v, t1) :- ParseValue(unique, t);
    var t2 := SkipWs(t1);
    if t2 == [] then None
    else if t2[0] == CLOSE_BRACKET then Some(([v], t2[1..]))
    else if t2[0] == COMMA then
      var (xs, rest) :- ParseItems(unique, SkipWs(t2[1..]));
      Some(([v] + xs, rest))
    else None
  }

  /** A key, the colon and the value after it. */
  function ParseMember(unique: bool, t: Text): (r: Option<(Member, Text)>)
    ensures r.Some? ==> |r.value.1| < |t|
    decreases |t|, 0
  {
    if t == [] || t[0] != QUOTE then None
    else
      var (k, t1) :- ParseString(t[1..]);
      var t2 := SkipWs(t1);
      if t2 == [] || t2[0] != COLON then None
      else
        var (v, rest) :- ParseValue(unique, SkipWs(t2[1..]));
        Some((Member(k, v), rest))
  }

  /** Object members up to and including the closing brace. */
  function ParseMembers(unique: bool, t: Text): (r: Option<(seq<Member>, Text)>)
    ensures r.Some? ==> |r.value.1| < |t|
    decreases |t|, 2
  {
    var (m, t1) :- ParseMember(unique, t);
    var t2 := SkipWs(t1);
    if t2 == [] then None
    else if t2[0] == CLOSE_BRACE then Some(([m], t2[1..]))
    else if t2[0] == COMMA then
      var (ms, rest) :- ParseMembers(unique, SkipWs(t2[1..]));
      Some(([m] + ms, rest))
    else None
  }

  /** json.loads; unique adds the standalone reader's object hook. */
  function Loads(unique: bool, t: Text): Option<Value> {
    if t != [] && t[0] == BYTE_ORDER_MARK then None
    else
      var (v, rest) :- ParseValue(unique, SkipWs(t));
      if SkipWs(rest) == [] then Some(v) else None
  }

  /** The object hook of the standalone reader. */
  method UniqueObject(pairs: seq<Member>) returns (result: Option<seq<Member>>)
    ensures result == if UniqueKeys(pairs) then Some(FromPairs(pairs)) else None
  {
    var d: seq<Member> := [];
    for i := 0 to |pairs|
      invariant UniqueKeys(pairs[..i]) && d == FromPairs(pairs[..i]) && d == pairs[..i]
    {
      GetFinds(d, pairs[i].key);
      PutKeeps(d, pairs[i].key, pairs[i].value);
      if HasKey(d, pairs[i].key) {
        return None;
      }
      d := Put(d, pairs[i].key, pairs[i].value);
      assert pairs[..i + 1] == pairs[..i] + [pairs[i]];
      assert pairs[..i + 1][..i] == pairs[..i];
    }
    assert pairs[..|pairs|] == pairs;
    return Some(d);
  }
}
