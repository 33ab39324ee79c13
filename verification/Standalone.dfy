/** The second verifier, which delegates canonicalisation to the rfc8785 library, and its agreement
    with the core. */
module Standalone {
  import opened Wrappers
  import opened Text
  import opened Binary64
  import opened Numbers
  import opened NumberLaws
  import opened Json
  import opened NormalForm
  import opened Fields
  import opened Render
  import opened Base64
  import opened Records
  import opened Equality
  import opened Chains
  import opened Binding

  // ---------- the double domain ----------

  /** _to_double_domain; None is ValueError. */
  function ToDoubleDomain(v: Value): Option<Value>
    decreases v, 0
  {
    match v
    case Int(n) => var x :- IntToDouble(n); Some(Float(x))
    case Dict(ms) => var ns :- DoubleMembers(ms); Some(Dict(ns))
    case List(xs) => var ys :- DoubleItems(xs); Some(List(ys))
    case Tuple(xs) => var ys :- DoubleItems(xs); Some(List(ys))
    case _ => Some(v)
  }

  function DoubleItems(xs: seq<Value>): (r: Option<seq<Value>>)
    ensures r.Some? <==> forall i | 0 <= i < |xs| :: ToDoubleDomain(xs[i]).Some?
    ensures r.Some? ==> |r.value| == |xs| && forall i | 0 <= i < |xs| :: ToDoubleDomain(xs[i]) == Some(r.value[i])
    decreases xs, 1
  {
    if xs == [] then Some([])
    else
      assert forall i | 0 <= i < |xs| :: xs[i] == if i == 0 then xs[0] else xs[1..][i - 1];
      var y :- ToDoubleDomain(xs[0]);
      var ys :- DoubleItems(xs[1..]);
      Some([y] + ys)
  }

  function DoubleMember(m: Member): Option<Member>
    decreases m, 1
  {
    var w :- ToDoubleDomain(m.value);
    Some(Member(m.key, w))
  }

  function DoubleMembers(ms: seq<Member>): (r: Option<seq<Member>>)
    ensures r.Some? <==> forall i | 0 <= i < |ms| :: DoubleMember(ms[i]).Some?
    ensures r.Some? ==> |r.value| == |ms| && forall i | 0 <= i < |ms| :: DoubleMember(ms[i]) == Some(r.value[i])
    decreases ms, 1
  {
    if ms == [] then Some([])
    else
      assert forall i | 0 <= i < |ms| :: ms[i] == if i == 0 then ms[0] else ms[1..][i - 1];
      var n :- DoubleMember(ms[0]);
      var ns :- DoubleMembers(ms[1..]);
      Some([n] + ns)
  }

  /** No integer and no tuple is left. */
  predicate DoubleOnly(v: Value) {
    match v
    case Int(_) => false
    case Tuple(_) => false
    case Dict(ms) => forall i | 0 <= i < |ms| :: DoubleOnly(ms[i].value)
    case List(xs) => forall i | 0 <= i < |xs| :: DoubleOnly(xs[i])
    case _ => true
  }

  /** What is assumed of the rfc8785 library: it renders, or refuses, double-only values as RFC 8785
      prescribes. */
  ghost predicate Rfc8785Law(p: Platform) {
    forall v | Proper(v) && DoubleOnly(v) :: p.rfc8785(v) == CanonicalBytes(p.repr, v)
  }

  /** The double domain keeps the normal form, and is left only by values that have none. */
  lemma {:induction false} DoubleDomain(v: Value)
    requires Proper(v)
    ensures ToDoubleDomain(v).None? ==> Normalise(v).None?
    ensures ToDoubleDomain(v).Some? ==>
      var w := ToDoubleDomain(v).value; Proper(w) && DoubleOnly(w) && Normalise(w) == Normalise(v)
  {
    match v
    case Dict(ms) =>
      forall i | 0 <= i < |ms|
        ensures DoubleMember(ms[i]).None? ==> NormaliseMember(ms[i]).None?
        ensures DoubleMember(ms[i]).Some? ==> MemberKept(ms[i], DoubleMember(ms[i]).value)
      {
        DoubleDomain(ms[i].value);
      }
      DoubleDict(ms);
    case List(xs) => DoubleList(v, xs);
    case Tuple(xs) => DoubleList(v, xs);
    case Int(n) => DoubleInt(n);
    case _ =>
  }

  lemma DoubleInt(n: int)
    ensures Normalise(Int(n)) == if IntToDouble(n).Some? then Normalise(Float(IntToDouble(n).value)) else None
  {
    hide Unsigned;
  }

  /** Members with the same key and normal form. */
  lemma SameNormalMembers(ms: seq<Member>, ns: seq<Member>)
    requires |ms| == |ns| && forall i | 0 <= i < |ms| :: NormaliseMember(ns[i]) == NormaliseMember(ms[i])
    ensures Normalise(Dict(ns)) == Normalise(Dict(ms))
  {
    hide NormaliseMember, Sort, Normalise;
    NormaliseDict(ms);
    NormaliseDict(ns);
    MembersNormal(ms);
    MembersNormal(ns);
    if NormaliseMembers(ms).Some? {
      assert NormaliseMembers(ns).value == NormaliseMembers(ms).value;
    }
  }

  lemma RefusedMember(ms: seq<Member>, i: nat)
    requires i < |ms| && NormaliseMember(ms[i]).None?
    ensures Normalise(Dict(ms)).None?
  {
    hide Normalise, NormaliseMember;
    NormaliseDict(ms);
    MembersNormal(ms);
  }

  predicate MemberKept(m: Member, n: Member) {
    n.key == m.key && Proper(n.value) && DoubleOnly(n.value) && NormaliseMember(n) == NormaliseMember(m)
  }

  lemma DoubleDict(ms: seq<Member>)
    requires UniqueKeys(ms)
    requires forall i | 0 <= i < |ms| :: DoubleMember(ms[i]).None? ==> NormaliseMember(ms[i]).None?
    requires forall i | 0 <= i < |ms| :: DoubleMember(ms[i]).Some? ==> MemberKept(ms[i], DoubleMember(ms[i]).value)
    ensures var d := ToDoubleDomain(Dict(ms));
      if d.None? then Normalise(Dict(ms)).None?
      else Proper(d.value) && DoubleOnly(d.value) && Normalise(d.value) == Normalise(Dict(ms))
  {
    hide DoubleMember, NormaliseMember, Normalise;
    if DoubleMembers(ms).Some? {
      var ns := DoubleMembers(ms).value;
      forall i | 0 <= i < |ms| ensures MemberKept(ms[i], ns[i]) {
        assert DoubleMember(ms[i]) == Some(ns[i]);
      }
      SameNormalMembers(ms, ns);
    } else {
      var i :| 0 <= i < |ms| && DoubleMember(ms[i]).None?;
      RefusedMember(ms, i);
    }
  }

  lemma {:induction false} DoubleList(v: Value, xs: seq<Value>)
    requires v == List(xs) || v == Tuple(xs)
    requires Proper(v)
    ensures var d := ToDoubleDomain(v);
      if d.None? then Normalise(v).None?
      else Proper(d.value) && DoubleOnly(d.value) && Normalise(d.value) == Normalise(v)
    decreases v, 0
  {
    forall i | 0 <= i < |xs|
      ensures ToDoubleDomain(xs[i]).None? ==> Normalise(xs[i]).None?
      ensures ToDoubleDomain(xs[i]).Some? ==>
        var w := ToDoubleDomain(xs[i]).value; Proper(w) && DoubleOnly(w) && Normalise(w) == Normalise(xs[i])
    {
      DoubleDomain(xs[i]);
    }
    hide ToDoubleDomain;
    ItemsNormal(xs);
    if DoubleItems(xs).Some? {
      var ys := DoubleItems(xs).value;
      ItemsNormal(ys);
      if NormaliseItems(xs).Some? {
        assert NormaliseItems(ys).value == NormaliseItems(xs).value;
      }
    }
  }

  // ---------- the verifier ----------

  /** canonical_bytes. */
  function StandaloneBytes(p: Platform, v: Value): Option<Bytes> {
    var w :- ToDoubleDomain(v);
    p.rfc8785(w)
  }

  /** The two canonicalisers agree on every value, bytes or failure. */
  lemma BytesAgree(p: Platform, v: Value)
    requires Rfc8785Law(p) && Proper(v)
    ensures StandaloneBytes(p, v) == CanonicalBytes(p.repr, v)
  {
    hide Normalise, Proper, DoubleOnly, ToDoubleDomain;
    DoubleDomain(v);
  }

  /** _digest. */
  function StandaloneDigest(p: Platform, v: Value): Option<Text> {
    var b :- StandaloneBytes(p, v);
    Some(B64Url(p.sha256(b)))
  }

  /** A record that meets the schema is canonicalisable exactly when its payload is: a signature
      text that matches its pattern holds no surrogate. */
  lemma PayloadExists(p: Platform, v: Value)
    requires SchemaOk(p, v) && Proper(v)
    ensures CanonicalBytes(p.repr, v).Some? <==> CanonicalBytes(p.repr, Payload(v)).Some?
  {
    hide Normalise, Proper, SchemaOk, CanonicalBytes;
    SignatureParts(p, v);
    var meta := Field(v, SIGNATURE).value;
    FieldProper(v, SIGNATURE);
    NameIsPlain("sig");
    NameIsPlain("signature");
    EmptyNormal();
    BytesExist(p.repr, v);
    BytesExist(p.repr, Payload(v));
    StringNormal(Field(meta, SIG).value.s);
    ProperDictKeys(v);
    ProperDictKeys(meta);
    PutNormalIff(meta.members, SIG, Str([]));
    PutNormalIff(v.members, SIGNATURE, Dict(Put(meta.members, SIG, Str([]))));
  }

  lemma SignatureParts(p: Platform, v: Value)
    requires SchemaOk(p, v)
    ensures v.Dict? && Has(v, SIGNATURE) && Field(v, SIGNATURE).value.Dict?
    ensures var meta := Field(v, SIGNATURE).value;
      Has(meta, SIG) && Field(meta, SIG).value.Str? && MatchesUrl(Field(meta, SIG).value.s, 86)
  {
    hide KindRulesOk, AgentOk, PrincipalOk, SupersedesOk, ActionOk, FixOk;
  }

  lemma StringNormal(t: Text)
    requires MatchesUrl(t, 86)
    ensures Normalise(Str(t)).Some?
  {
    forall i | 0 <= i < |t| ensures !IsSurrogate(t[i]) {
      if i < 86 { assert UrlChar(t[i]); }
    }
  }

  /** Replacing a canonicalisable member by a canonicalisable value keeps canonicalisability, both
      ways; replacing it by a value that is one exactly when the old one was, too. */
  lemma PutNormalIff(ms: seq<Member>, k: Text, x: Value)
    requires UniqueKeys(ms) && SurrogateFree(k) && Get(ms, k).Some?
    requires Normalise(Get(ms, k).value).Some? <==> Normalise(x).Some?
    ensures Normalise(Dict(ms)).Some? <==> Normalise(Dict(Put(ms, k, x))).Some?
  {
    hide Normalise, UniqueKeys;
    if Normalise(Dict(ms)).Some? {
      NormalGet(ms, k);
      PutNormal(ms, k, x);
    }
    if Normalise(Dict(Put(ms, k, x))).Some? {
      GetPut(ms, k, x, k);
      NormalGet(Put(ms, k, x), k);
      PutNormal(Put(ms, k, x), k, Get(ms, k).value);
      PutPut(ms, k, x, Get(ms, k).value);
    }
  }

  lemma NormalGet(ms: seq<Member>, k: Text)
    requires Normalise(Dict(ms)).Some? && Get(ms, k).Some?
    ensures Normalise(Get(ms, k).value).Some?
  {
    hide Normalise;
    NormaliseDict(ms);
    GetNormalised(ms, k);
  }
}
