/** canonical_json as the program computes it: text appended to an output list, members visited
    in key order. The core and the candidate share it and differ in their number path. */
module Render {
  import opened Wrappers
  import opened Text
  import opened Encoding
  import opened Binary64
  import opened Numbers
  import opened NumberLaws
  import opened KeyOrder
  import opened Json
  import opened JsonParser
  import opened JsonWriter
  import opened NormalForm

  /** "".join(parts). */
  function Concat(parts: seq<Text>): Text {
    if parts == [] then [] else Concat(parts[..|parts| - 1]) + parts[|parts| - 1]
  }

  class Out {
    var parts: seq<Text>

    constructor ()
      ensures parts == []
    {
      parts := [];
    }

    function Content(): Text
      reads this
    {
      Concat(parts)
    }

    method Append(t: Text)
      modifies this
      ensures parts == old(parts) + [t] && Content() == old(Content()) + t
    {
      parts := parts + [t];
    }
  }

  // ---------- strings ----------

  lemma {:induction false} EscapeSnoc(style: Style, s: Text, c: CodePoint)
    ensures Escape(style, s + [c]) == Escape(style, s) + EscapeChar(style, c)
  {
    if s == [] {
      assert s + [c] == [c];
      assert Escape(style, [c]) == EscapeChar(style, c) + [];
    } else {
      assert (s + [c])[1..] == s[1..] + [c];
      EscapeSnoc(style, s[1..], c);
    }
  }

  method EscapeString(s: Text, ghost style: Style) returns (r: Option<Text>)
    requires style.Jcs?
    ensures r == if SurrogateFree(s) then Some(Quoted(style, s)) else None
  {
    hide EscapeChar;
    var out := [[QUOTE]];
    assert Concat(out) == [QUOTE] by { assert out[..0] == []; }
    for i := 0 to |s|
      invariant SurrogateFree(s[..i])
      invariant Concat(out) == [QUOTE] + Escape(style, s[..i])
    {
      var ch := s[i];
      var o: int := ch;
      var piece: Text;
      if ShortEscape(ch).Some? {
        piece := [BACKSLASH, ShortEscape(ch).value];
      } else if o < 0x20 {
        piece := UnicodeEscape(ch);
      } else if 0xD800 <= o <= 0xDFFF {
        return None;
      } else {
        piece := [ch];
      }
      assert piece == EscapeChar(style, ch) by { PieceIsEscape(style, ch, piece); }
      assert (out + [piece])[..|out|] == out;
      out := out + [piece];
      assert s[..i + 1] == s[..i] + [ch];
      EscapeSnoc(style, s[..i], ch);
    }
    assert s[..|s|] == s;
    assert (out + [[QUOTE]])[..|out|] == out;
    out := out + [[QUOTE]];
    assert [QUOTE] + Escape(style, s) + [QUOTE] == Quoted(style, s);
    return Some(Concat(out));
  }

  lemma PieceIsEscape(style: Style, c: CodePoint, piece: Text)
    requires style.Jcs?
    requires piece == if ShortEscape(c).Some? then [BACKSLASH, ShortEscape(c).value] else if c < 0x20 then UnicodeEscape(c) else [c]
    ensures piece == EscapeChar(style, c)
  {}

  // ---------- sequences of texts ----------

  /** ",".join(ps). */
  function CommaJoin(ps: seq<Text>): Text {
    if ps == [] then []
    else if |ps| == 1 then ps[0]
    else CommaJoin(ps[..|ps| - 1]) + [COMMA] + ps[|ps| - 1]
  }

  lemma {:induction false} CommaJoinFirst(ps: seq<Text>)
    requires 1 < |ps|
    ensures CommaJoin(ps) == ps[0] + ([COMMA] + CommaJoin(ps[1..]))
  {
    var last := ps[|ps| - 1];
    if |ps| > 2 {
      CommaJoinFirst(ps[..|ps| - 1]);
      assert ps[..|ps| - 1][1..] == ps[1..][..|ps| - 2];
    } else {
      assert ps[..1] == [ps[0]] && ps[1..] == [ps[1]];
    }
  }

  lemma CommaJoinSnoc(ps: seq<Text>, p: Text)
    ensures CommaJoin(ps + [p]) == CommaJoin(ps) + (if ps == [] then [] else [COMMA]) + p
  {
    assert (ps + [p])[..|ps|] == ps;
  }

  /** The canonical text of one member. */
  function MemberText(repr: Repr, m: Member): Option<Text> {
    var n :- NormaliseMember(m);
    Some(WriteMember(Jcs(repr), n))
  }

  lemma {:induction false} WriteItemsJoin(style: Style, xs: seq<Value>, ps: seq<Text>)
    requires xs != [] && |ps| == |xs| && forall i | 0 <= i < |xs| :: ps[i] == Write(style, xs[i])
    ensures WriteItems(style, xs) == CommaJoin(ps) + [CLOSE_BRACKET]
  {
    hide Write;
    if |xs| > 1 {
      WriteItemsJoin(style, xs[1..], ps[1..]);
      CommaJoinFirst(ps);
    }
  }

  lemma {:induction false} WriteMembersJoin(style: Style, ms: seq<Member>, ps: seq<Text>)
    requires ms != [] && |ps| == |ms| && forall i | 0 <= i < |ms| :: ps[i] == WriteMember(style, ms[i])
    ensures WriteMembers(style, ms) == CommaJoin(ps) + [CLOSE_BRACE]
  {
    hide WriteMember;
    if |ms| > 1 {
      WriteMembersJoin(style, ms[1..], ps[1..]);
      CommaJoinFirst(ps);
    }
  }

  // ---------- sorting commutes with normalising ----------

  lemma {:induction false} InsertNormalised(m: Member, ms: seq<Member>, n: Member, ns: seq<Member>)
    requires NormaliseMember(m) == Some(n)
    requires |ms| == |ns| && forall i | 0 <= i < |ms| :: NormaliseMember(ms[i]) == Some(ns[i])
    ensures forall i | 0 <= i <= |ms| :: NormaliseMember(Insert(m, ms)[i]) == Some(Insert(n, ns)[i])
  {
    hide KeyLess, Normalise;
    if ms != [] {
      SameKey(ms[0], ns[0]);
      SameKey(m, n);
      hide NormaliseMember;
      if KeyLess(ms[0].key, m.key) {
        InsertNormalised(m, ms[1..], n, ns[1..]);
        InsertAfter(m, ms);
        InsertAfter(n, ns);
      } else {
        InsertBefore(m, ms);
        InsertBefore(n, ns);
      }
    }
  }

  lemma SameKey(m: Member, n: Member)
    requires NormaliseMember(m) == Some(n)
    ensures m.key == n.key
  {}

  lemma InsertAfter(m: Member, ms: seq<Member>)
    requires ms != [] && KeyLess(ms[0].key, m.key)
    ensures forall i | 0 <= i <= |ms| :: Insert(m, ms)[i] == if i == 0 then ms[0] else Insert(m, ms[1..])[i - 1]
  {}

  lemma InsertBefore(m: Member, ms: seq<Member>)
    requires ms != [] && !KeyLess(ms[0].key, m.key)
    ensures forall i | 0 <= i <= |ms| :: Insert(m, ms)[i] == if i == 0 then m else ms[i - 1]
  {}

  lemma {:induction false} SortNormalised(ms: seq<Member>, ns: seq<Member>)
    requires |ms| == |ns| && forall i | 0 <= i < |ms| :: NormaliseMember(ms[i]) == Some(ns[i])
    ensures forall i | 0 <= i < |ms| :: NormaliseMember(Sort(ms)[i]) == Some(Sort(ns)[i])
  {
    hide Normalise;
    if ms != [] {
      SortNormalised(ms[1..], ns[1..]);
      InsertNormalised(ms[0], Sort(ms[1..]), ns[0], Sort(ns[1..]));
    }
  }

  /** The canonical text of an object: its members' texts in key order. */
  lemma CanonicalDict(repr: Repr, ms: seq<Member>, ps: seq<Text>)
    requires |ps| == |ms| && forall i | 0 <= i < |ms| :: MemberText(repr, Sort(ms)[i]) == Some(ps[i])
    ensures Canonical(repr, Dict(ms)) == Some([OPEN_BRACE] + CommaJoin(ps) + [CLOSE_BRACE])
  {
    hide Sort, NormaliseMember, WriteMember, CommaJoin, Normalise;
    SortKeeps(ms);
    SameMembers(ms, Sort(ms));
    MembersNormal(ms);
    MembersNormal(Sort(ms));
    NormalisedMembers(Sort(ms), ms);
    var ns := NormaliseMembers(ms).value;
    SortNormalised(ms, ns);
    NormaliseDict(ms);
    if ms != [] {
      WriteMembersJoin(Jcs(repr), Sort(ns), ps);
    } else {
      EmptyJoin(ps);
    }
    Bracketed(OPEN_BRACE, CommaJoin(ps), CLOSE_BRACE);
  }

  lemma Bracketed(open: CodePoint, t: Text, close: CodePoint)
    ensures [open] + (t + [close]) == [open] + t + [close]
    ensures t == [] ==> [open] + t + [close] == [open, close]
  {}

  lemma EmptyJoin(ps: seq<Text>)
    requires ps == []
    ensures CommaJoin(ps) == []
  {}

  lemma CanonicalDictFails(repr: Repr, ms: seq<Member>, i: nat)
    requires i < |ms| && MemberText(repr, Sort(ms)[i]).None?
    ensures Canonical(repr, Dict(ms)).None?
  {
    hide Sort, NormaliseMember, Normalise, Write;
    MemberTextFails(repr, Sort(ms)[i]);
    MembersNormal(Sort(ms));
    SortKeeps(ms);
    SameMembers(ms, Sort(ms));
    NormalisedMembers(ms, Sort(ms));
    NormaliseDict(ms);
  }

  lemma MemberTextFails(repr: Repr, m: Member)
    ensures MemberText(repr, m).None? ==> NormaliseMember(m).None?
  {}

  lemma CanonicalItems(repr: Repr, v: Value, xs: seq<Value>, ps: seq<Text>)
    requires v == List(xs) || v == Tuple(xs)
    requires |ps| == |xs| && forall i | 0 <= i < |xs| :: Canonical(repr, xs[i]) == Some(ps[i])
    ensures Canonical(repr, v) == Some([OPEN_BRACKET] + CommaJoin(ps) + [CLOSE_BRACKET])
  {
    hide CommaJoin;
    ItemsNormal(xs);
    var ys := NormaliseItems(xs).value;
    if xs != [] {
      WriteItemsJoin(Jcs(repr), ys, ps);
    } else {
      EmptyJoin(ps);
    }
    Bracketed(OPEN_BRACKET, CommaJoin(ps), CLOSE_BRACKET);
  }

  lemma CanonicalItemsFail(repr: Repr, v: Value, xs: seq<Value>, i: nat)
    requires v == List(xs) || v == Tuple(xs)
    requires i < |xs| && Canonical(repr, xs[i]).None?
    ensures Canonical(repr, v).None?
  {
    ItemsNormal(xs);
  }

  // ---------- rendering ----------

  datatype Implementation = Core | Candidate

  method Number(repr: Repr, impl: Implementation, v: Num) returns (s: Option<Text>)
    requires ReprLaw(repr)
    ensures s == NumberText(repr, v)
  {
    if impl.Core? {
      s := JcsNumber(repr, v);
    } else {
      s := EsNumber(repr, v);
    }
  }

  lemma CanonicalNumber(repr: Repr, v: Value)
    ensures v.Int? ==> Canonical(repr, v) == NumberText(repr, IntNum(v.n))
    ensures v.Float? ==> Canonical(repr, v) == NumberText(repr, FloatNum(v.x))
  {}

  /** Append the canonical text of v; false is an exception. */
  method RenderValue(repr: Repr, impl: Implementation, v: Value, out: Out) returns (ok: bool)
    requires ReprLaw(repr) && Proper(v)
    modifies out
    ensures ok <==> Canonical(repr, v).Some?
    ensures ok ==> out.Content() == old(out.Content()) + Canonical(repr, v).value
    decreases v, 1
  {
    hide Concat;
    ok := true;
    match v
    case Null => out.Append(NULL_TEXT);
    case Bool(b) => out.Append(if b then TRUE_TEXT else FALSE_TEXT);
    case Str(s) =>
      var t := EscapeString(s, Jcs(repr));
      if t.None? { return false; }
      out.Append(t.value);
    case Int(n) =>
      CanonicalNumber(repr, v);
      var t := Number(repr, impl, IntNum(n));
      if t.None? { return false; }
      out.Append(t.value);
    case Float(x) =>
      CanonicalNumber(repr, v);
      var t := Number(repr, impl, FloatNum(x));
      if t.None? { return false; }
      out.Append(t.value);
    case Dict(ms) => ok := RenderDict(repr, impl, v, ms, out);
    case List(xs) => ok := RenderItems(repr, impl, v, xs, out);
    case Tuple(xs) => ok := RenderItems(repr, impl, v, xs, out);
    case Opaque => return false;
  }

  method RenderDict(repr: Repr, impl: Implementation, v: Value, ms: seq<Member>, out: Out) returns (ok: bool)
    requires v == Dict(ms) && ReprLaw(repr) && Proper(v)
    modifies out
    ensures ok <==> Canonical(repr, v).Some?
    ensures ok ==> out.Content() == old(out.Content()) + Canonical(repr, v).value
    decreases v, 0
  {
    hide Concat, Canonical, Sort, CommaJoin, MemberText;
    ghost var start := out.Content();
    out.Append([OPEN_BRACE]);
    var sorted := Sort(ms);
    SortKeeps(ms);
    SameMembers(ms, sorted);
    ghost var ps: seq<Text> := [];
    EmptyJoin(ps);
    for i := 0 to |sorted|
      invariant |ps| == i && forall j | 0 <= j < i :: MemberText(repr, sorted[j]) == Some(ps[j])
      invariant out.Content() == start + [OPEN_BRACE] + CommaJoin(ps)
    {
      if i > 0 {
        out.Append([COMMA]);
      }
      assert sorted[i] in sorted;
      ok := RenderMember(repr, impl, v, sorted[i], out);
      if !ok {
        CanonicalDictFails(repr, ms, i);
        return false;
      }
      ghost var p := MemberText(repr, sorted[i]).value;
      CommaJoinSnoc(ps, p);
      assert out.Content() == start + [OPEN_BRACE] + (CommaJoin(ps) + (if ps == [] then [] else [COMMA]) + p);
      ps := ps + [p];
    }
    out.Append([CLOSE_BRACE]);
    CanonicalDict(repr, ms, ps);
    assert out.Content() == start + ([OPEN_BRACE] + CommaJoin(ps) + [CLOSE_BRACE]);
    return true;
  }

  /** One key of the object v, the colon and obj[key]. */
  method RenderMember(repr: Repr, impl: Implementation, v: Value, m: Member, out: Out) returns (ok: bool)
    requires v.Dict? && m in v.members && ReprLaw(repr) && Proper(v)
    modifies out
    ensures ok <==> MemberText(repr, m).Some?
    ensures ok ==> out.Content() == old(out.Content()) + MemberText(repr, m).value
    decreases v, 0, 0
  {
    hide Concat, Canonical;
    ghost var start := out.Content();
    GetUnique(v.members, m);
    MemberTextIs(repr, m);
    ghost var k :| 0 <= k < |v.members| && v.members[k] == m;
    var name := EscapeString(m.key, Jcs(repr));
    if name.None? {
      return false;
    }
    out.Append(name.value);
    out.Append([COLON]);
    assert v.members[k].value < v;
    ok := RenderValue(repr, impl, Get(v.members, m.key).value, out);
    if ok {
      var c := Canonical(repr, m.value).value;
      assert start + name.value + [COLON] + c == start + (name.value + ([COLON] + c));
    }
  }

  lemma MemberTextIs(repr: Repr, m: Member)
    ensures MemberText(repr, m) ==
      if SurrogateFree(m.key) && Canonical(repr, m.value).Some?
      then Some(Quoted(Jcs(repr), m.key) + ([COLON] + Canonical(repr, m.value).value)) else None
  {}

  method RenderItems(repr: Repr, impl: Implementation, v: Value, xs: seq<Value>, out: Out) returns (ok: bool)
    requires (v == List(xs) || v == Tuple(xs)) && ReprLaw(repr) && Proper(v)
    modifies out
    ensures ok <==> Canonical(repr, v).Some?
    ensures ok ==> out.Content() == old(out.Content()) + Canonical(repr, v).value
    decreases v, 0
  {
    hide Concat, Canonical, CommaJoin;
    ghost var start := out.Content();
    out.Append([OPEN_BRACKET]);
    ghost var ps: seq<Text> := [];
    EmptyJoin(ps);
    for i := 0 to |xs|
      invariant |ps| == i && forall j | 0 <= j < i :: Canonical(repr, xs[j]) == Some(ps[j])
      invariant out.Content() == start + [OPEN_BRACKET] + CommaJoin(ps)
    {
      if i > 0 {
        out.Append([COMMA]);
      }
      ok := RenderValue(repr, impl, xs[i], out);
      if !ok {
        CanonicalItemsFail(repr, v, xs, i);
        return false;
      }
      ghost var p := Canonical(repr, xs[i]).value;
      CommaJoinSnoc(ps, p);
      assert out.Content() == start + [OPEN_BRACKET] + (CommaJoin(ps) + (if ps == [] then [] else [COMMA]) + p);
      ps := ps + [p];
    }
    out.Append([CLOSE_BRACKET]);
    CanonicalItems(repr, v, xs, ps);
    assert out.Content() == start + ([OPEN_BRACKET] + CommaJoin(ps) + [CLOSE_BRACKET]);
    return true;
  }

  /** canonical_json's bytes. */
  function CanonicalBytes(repr: Repr, v: Value): Option<Bytes> {
    var t :- Canonical(repr, v);
    Some(Utf8(t))
  }

  method CanonicalJson(repr: Repr, impl: Implementation, v: Value) returns (r: Option<Bytes>)
    requires ReprLaw(repr) && Proper(v)
    ensures r == CanonicalBytes(repr, v)
  {
    hide Canonical;
    var out := new Out();
    assert out.Content() == [];
    var ok := RenderValue(repr, impl, v, out);
    if !ok { return None; }
    assert [] + Canonical(repr, v).value == Canonical(repr, v).value;
    return Some(Utf8(out.Content()));
  }

  /** Canonical bytes determine the normal form, and depend on nothing else. */
  lemma BytesInjective(repr: Repr, v: Value, w: Value)
    requires Proper(v) && Proper(w) && ReprLaw(repr)
    requires CanonicalBytes(repr, v).Some? && CanonicalBytes(repr, w).Some?
    ensures CanonicalBytes(repr, v) == CanonicalBytes(repr, w) <==> Normalise(v) == Normalise(w)
  {
    hide Normalise, Write;
    CanonicalInjective(repr, v, w);
    if CanonicalBytes(repr, v) == CanonicalBytes(repr, w) {
      Utf8Injective(Canonical(repr, v).value, Canonical(repr, w).value);
    }
  }

  lemma BytesExist(repr: Repr, v: Value)
    ensures CanonicalBytes(repr, v).Some? <==> Normalise(v).Some?
  {}
}
