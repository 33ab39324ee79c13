/** JSON texts as a grammar (RFC 8259, with Python's three extra constants): syntax trees that keep
    every free choice of a writer (blanks, escapes, letter case), what they spell and what they mean. */
module Grammar {
  import opened Text
  import opened Decimal
  import opened Binary64
  import opened Numeral
  import opened Json

  // ---------- the trees ----------

  type Sixteenth = d: nat | d < 16

  /** A hexadecimal digit and its letter case. */
  datatype Nibble = Nibble(d: Sixteenth, upper: bool) {
    function Char(): CodePoint { (if upper then T("0123456789ABCDEF") else T("0123456789abcdef"))[d] }

    predicate Capital() { upper && 10 <= d }
  }

  type RawChar = c: CodePoint | 0x20 <= c && c != '"' as int && c != '\\' as int witness 0x20
  type EscapeIndex = i: nat | i < 8

  /** One character of a string: itself, one of the eight short escapes, or a code unit escape. */
  datatype Spelling = Raw(c: RawChar) | Short(i: EscapeIndex) | Unit(a: Nibble, b: Nibble, c3: Nibble, c4: Nibble) {
    function Spelled(): (t: Text)
      ensures t != []
    {
      match this
      case Raw(c) => [c]
      case Short(i) => T("\\") + [T("\"\\/bfnrt")[i]]
      case Unit(a, b, c, d) => T("\\u") + [a.Char(), b.Char(), c.Char(), d.Char()]
    }

    function Value(): CodePoint {
      match this
      case Raw(c) => c
      case Short(i) => [0x22, 0x5C, 0x2F, 0x08, 0x0C, 0x0A, 0x0D, 0x09][i]
      case Unit(a, b, c, d) => 0x1000 * a.d + 0x100 * b.d + 0x10 * c.d + d.d
    }

    predicate High() { Unit? && 0xD800 <= Value() < 0xDC00 }
    predicate Low() { Unit? && 0xDC00 <= Value() < 0xE000 }

    /** No capital letter among the hexadecimal digits. */
    predicate LowerCase() { Unit? ==> !a.Capital() && !b.Capital() && !c3.Capital() && !c4.Capital() }
  }

  /** Spaces, tabs and line ends. */
  type Blanks = t: Text | forall i | 0 <= i < |t| :: t[i] in [0x20, 0x09, 0x0A, 0x0D]
  type Literal = v: Value | v.Null? || v.Bool? || (v.Float? && !v.x.Finite?) witness Null
  type WellFormed = n: Numeral | n.WellFormed() witness Numeral(false, [ZERO_CHAR], [], NoExp)

  /** A constant, a number with the case of its exponent letter and whether a plus sign follows it, a
      string, an array or an object, each gap with its blanks. */
  datatype Doc =
    | Constant(v: Literal)
    | Numeric(n: WellFormed, upper: bool, plus: bool)
    | Chars(cs: seq<Spelling>)
    | Array(gap: Blanks, items: seq<Item>)
    | Object(gap: Blanks, entries: seq<Entry>)

  /** An item and the blanks around the comma after it; the last one has no comma. */
  datatype Item = Item(d: Doc, after: Blanks, next: Blanks)

  datatype Entry = Entry(key: seq<Spelling>, beforeColon: Blanks, afterColon: Blanks, item: Item)

  // ---------- what they spell ----------

  function CharsText(cs: seq<Spelling>): Text {
    if cs == [] then [] else cs[0].Spelled() + CharsText(cs[1..])
  }

  function StringText(cs: seq<Spelling>): Text { T("\"") + (CharsText(cs) + T("\"")) }

  function ConstantText(v: Literal): Text {
    match v
    case Null => T("null")
    case Bool(b) => if b then T("true") else T("false")
    case Float(x) => if x.NaN? then T("NaN") else if x.neg then T("-Infinity") else T("Infinity")
  }

  function ExponentText(e: Exponent, upper: bool, plus: bool): Text {
    match e
    case NoExp => []
    case ExpPart(neg, ds) => (if upper then T("E") else T("e")) + ((if neg then T("-") else if plus then T("+") else []) + ds)
  }

  function NumericText(n: Numeral, upper: bool, plus: bool): Text {
    (if n.neg then T("-") else [])
    + (n.whole + ((if n.frac == [] then [] else T(".") + n.frac) + ExponentText(n.exp, upper, plus)))
  }

  function DocText(d: Doc): Text
    decreases d, 0
  {
    match d
    case Constant(v) => ConstantText(v)
    case Numeric(n, upper, plus) => NumericText(n, upper, plus)
    case Chars(cs) => StringText(cs)
    case Array(gap, items) => T("[") + (gap + ItemsText(items))
    case Object(gap, es) => T("{") + (gap + EntriesText(es))
  }

  /** Items and the closing bracket. */
  function ItemsText(items: seq<Item>): Text
    decreases items, 1
  {
    if items == [] then T("]")
    else DocText(items[0].d) + (items[0].after + ItemsTail(items))
  }

  /** What follows the first item and its blanks. */
  function ItemsTail(items: seq<Item>): Text
    requires items != []
    decreases items, 0
  {
    if |items| == 1 then T("]") else T(",") + (items[0].next + ItemsText(items[1..]))
  }

  /** A key, the colon and the value. */
  function EntryText(e: Entry): Text
    decreases e, 1
  {
    StringText(e.key) + (e.beforeColon + (T(":") + (e.afterColon + DocText(e.item.d))))
  }

  function EntriesText(es: seq<Entry>): Text
    decreases es, 2
  {
    if es == [] then T("}")
    else EntryText(es[0]) + (es[0].item.after + EntriesTail(es))
  }

  function EntriesTail(es: seq<Entry>): Text
    requires es != []
    decreases es, 0
  {
    if |es| == 1 then T("}") else T(",") + (es[0].item.next + EntriesText(es[1..]))
  }

  // ---------- what they mean ----------

  /** A high surrogate escape and a low one right after it are one character. */
  function CharsMeaning(cs: seq<Spelling>): Text {
    if cs == [] then []
    else if 2 <= |cs| && cs[0].High() && cs[1].Low() then
      [0x1_0000 + (cs[0].Value() - 0xD800) * 0x400 + (cs[1].Value() - 0xDC00)] + CharsMeaning(cs[2..])
    else [cs[0].Value()] + CharsMeaning(cs[1..])
  }

  /** An integer literal is exact; any other number is the nearest double, or an infinity. */
  function NumericMeaning(n: Numeral): Value
    requires n.WellFormed()
  {
    if n.frac == [] && n.exp.NoExp? then Int(if n.neg then 0 - Number(n.whole) else Number(n.whole))
    else
      var m := Round(n.Magnitude());
      Float(if m.Some? then Finite(n.neg, m.value) else Infinite(n.neg))
  }

  function Meaning(d: Doc): Value
    decreases d, 0
  {
    match d
    case Constant(v) => v
    case Numeric(n, _, _) => NumericMeaning(n)
    case Chars(cs) => Str(CharsMeaning(cs))
    case Array(_, items) => List(ItemsMeaning(items))
    case Object(_, es) => Dict(FromPairs(EntriesMeaning(es)))
  }

  function ItemsMeaning(items: seq<Item>): seq<Value>
    decreases items, 1
  {
    if items == [] then [] else [Meaning(items[0].d)] + ItemsMeaning(items[1..])
  }

  function EntryMeaning(e: Entry): Member
    decreases e, 1
  {
    Member(CharsMeaning(e.key), Meaning(e.item.d))
  }

  function EntriesMeaning(es: seq<Entry>): seq<Member>
    decreases es, 2
  {
    if es == [] then [] else [EntryMeaning(es[0])] + EntriesMeaning(es[1..])
  }

  /** No object repeats a key. */
  predicate KeysDistinct(d: Doc)
    decreases d, 0
  {
    match d
    case Array(_, items) => ItemsDistinct(items)
    case Object(_, es) => EntriesDistinct(es) && UniqueKeys(EntriesMeaning(es))
    case _ => true
  }

  predicate ItemsDistinct(items: seq<Item>)
    decreases items, 1
  {
    items == [] || (KeysDistinct(items[0].d) && ItemsDistinct(items[1..]))
  }

  predicate EntriesDistinct(es: seq<Entry>)
    decreases es, 1
  {
    es == [] || (KeysDistinct(es[0].item.d) && EntriesDistinct(es[1..]))
  }

  // ---------- blanks ----------

  /** The tree with these blanks after commas and colons and none elsewhere. */
  function Respaced(d: Doc, comma: Blanks, colon: Blanks): Doc
    decreases d, 0
  {
    match d
    case Array(_, items) => Array([], RespacedItems(items, comma, colon))
    case Object(_, es) => Object([], RespacedEntries(es, comma, colon))
    case _ => d
  }

  function RespacedItems(items: seq<Item>, comma: Blanks, colon: Blanks): seq<Item>
    decreases items, 1
  {
    if items == [] then []
    else [Item(Respaced(items[0].d, comma, colon), [], comma)] + RespacedItems(items[1..], comma, colon)
  }

  function RespacedEntry(e: Entry, comma: Blanks, colon: Blanks): Entry
    decreases e, 1
  {
    Entry(e.key, [], colon, Item(Respaced(e.item.d, comma, colon), [], comma))
  }

  function RespacedEntries(es: seq<Entry>, comma: Blanks, colon: Blanks): seq<Entry>
    decreases es, 2
  {
    if es == [] then [] else [RespacedEntry(es[0], comma, colon)] + RespacedEntries(es[1..], comma, colon)
  }

  /** No blanks at all. */
  function Bare(d: Doc): Doc { Respaced(d, [], []) }
}
