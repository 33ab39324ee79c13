/** Correction chains: the core verifier, what a checkpoint binds, and which lists are accepted. */
module Chains {
  import opened Wrappers
  import opened Text
  import opened Numbers
  import opened Json
  import opened NormalForm
  import opened Fields
  import opened Render
  import opened Base64
  import opened Records
  import opened Equality

  const LENGTH := T("length")
  const GENESIS := T("genesis")
  const HEAD := T("head")

  // ---------- specification ----------

  /** d == {"alg": "sha256", "digest": text}. */
  predicate EqualsHash(d: Option<Value>, text: Text) {
    && d.Some? && d.value.Dict? && |d.value.members| == 2
    && Field(d.value, ALG) == Some(Str(SHA256)) && Field(d.value, DIGEST) == Some(Str(text))
  }

  /** sup points at a record by its identifier and its digest. */
  predicate PointsAt(sup: Value, id: Text, digest: Option<Text>) {
    Field(sup, RECEIPT_ID) == Some(Str(id)) && digest.Some? && EqualsHash(Field(sup, DIGEST), digest.value)
  }

  /** rec supersedes prev. */
  predicate LinkOk(p: Platform, prev: Value, rec: Value) {
    Has(rec, SUPERSEDES) && PointsAt(Field(rec, SUPERSEDES).value, IdOf(prev), Digest(p, prev))
  }

  predicate DistinctIds(rs: seq<Value>) {
    forall i, j | 0 <= i < j < |rs| :: IdOf(rs[i]) != IdOf(rs[j])
  }

  predicate AllVerify(p: Platform, rs: seq<Value>, key: Option<Bytes>) {
    forall i | 0 <= i < |rs| :: Verify(p, rs[i], key)
  }

  predicate Linked(p: Platform, rs: seq<Value>) {
    && (rs != [] ==> !Has(rs[0], SUPERSEDES))
    && forall i | 0 < i < |rs| :: LinkOk(p, rs[i - 1], rs[i])
  }

  /** An accepted chain. */
  predicate ChainOk(p: Platform, rs: seq<Value>, key: Option<Bytes>) {
    rs != [] && AllVerify(p, rs, key) && DistinctIds(rs) && Linked(p, rs)
  }

  /** checkpoint == {"length": ..., "genesis": ..., "head": ...}, under a trusted key. */
  predicate CheckpointOk(p: Platform, rs: seq<Value>, key: Option<Bytes>, cp: Value)
    requires rs != []
  {
    && key.Some? && cp.Dict? && |cp.members| == 3
    && Field(cp, LENGTH) == Some(Int(|rs|))
    && Digest(p, rs[0]).Some? && Field(cp, GENESIS) == Some(Str(Digest(p, rs[0]).value))
    && Digest(p, rs[|rs| - 1]).Some? && Field(cp, HEAD) == Some(Str(Digest(p, rs[|rs| - 1]).value))
  }

  predicate Accepted(p: Platform, records: Value, key: Option<Bytes>, checkpoint: Option<Value>) {
    && records.List? && ChainOk(p, records.items, key)
    && (checkpoint.Some? ==> CheckpointOk(p, records.items, key, checkpoint.value))
  }

  /** chain_checkpoint; None is ValueError. */
  function Checkpoint(p: Platform, rs: seq<Value>): Option<Value> {
    if !ChainOk(p, rs, None) then None
    else
      var g :- Digest(p, rs[0]);
      var h :- Digest(p, rs[|rs| - 1]);
      Some(CheckpointDict(|rs|, g, h))
  }

  function CheckpointDict(length: nat, genesis: Text, head: Text): Value {
    Dict([Member(LENGTH, Int(length)), Member(GENESIS, Str(genesis)), Member(HEAD, Str(head))])
  }

  lemma VerifiedFacts(p: Platform, v: Value, key: Option<Bytes>)
    requires Verify(p, v, key)
    ensures v.Dict? && CanonicalBytes(p.repr, v).Some? && Digest(p, v).Some? && Normalise(v).Some?
    ensures Field(v, CORRECTION_ID) == Some(Str(IdOf(v)))
    ensures Has(v, SUPERSEDES) ==> Field(v, SUPERSEDES).value.Dict?
  {
    hide Normalise, CanonicalBytes, KindRulesOk;
    BytesExist(p.repr, v);
  }

  // ---------- verify_chain ----------

  /** The loop's two comparisons of a supersedes value with the previous record. */
  predicate Points(sup: Value, id: Text, digest: Text) {
    && PyEqual(OrNull(Field(sup, RECEIPT_ID)), Str(id))
    && PyEqual(OrNull(Field(sup, DIGEST)), HashDict(digest))
  }

  /** On verified records the comparisons decide the link. */
  lemma PointsIsLink(p: Platform, prev: Value, rec: Value, key: Option<Bytes>)
    requires Verify(p, prev, key) && Verify(p, rec, key) && Proper(rec)
    ensures Digest(p, prev).Some?
    ensures LinkOk(p, prev, rec) <==> Has(rec, SUPERSEDES) && Points(Field(rec, SUPERSEDES).value, IdOf(prev), Digest(p, prev).value)
    ensures !Points(Dict([]), IdOf(prev), Digest(p, prev).value)
  {
    hide Verify, PyEqual, Digest, Proper, IdOf;
    VerifiedFacts(p, prev, key);
    NullIsNotStr(IdOf(prev));
    if Has(rec, SUPERSEDES) {
      FieldProper(rec, SUPERSEDES);
      var sup := Field(rec, SUPERSEDES).value;
      EqualToStr(OrNull(Field(sup, RECEIPT_ID)), IdOf(prev));
      if Has(sup, DIGEST) {
        FieldProper(sup, DIGEST);
        HashEqual(Field(sup, DIGEST).value, Digest(p, prev).value);
      }
      NullIsNotDict(HashDict(Digest(p, prev).value));
    }
  }

  lemma NullIsNotStr(s: Text)
    ensures !PyEqual(Null, Str(s))
  {}

  lemma NullIsNotDict(d: Value)
    requires d.Dict?
    ensures !PyEqual(Null, d)
  {}

  /** The checkpoint comparison, after the check that its length is an int and not a bool. */
  predicate Expected(cp: Value, length: nat, genesis: Text, head: Text) {
    Typed(cp) && PyEqual(cp, CheckpointDict(length, genesis, head))
  }

  /** isinstance(checkpoint, dict) and type(checkpoint.get("length")) is int. */
  predicate Typed(cp: Value) { cp.Dict? && OrNull(Field(cp, LENGTH)).Int? }

  lemma ExpectedIsCheckpoint(cp: Value, length: nat, genesis: Text, head: Text)
    requires Proper(cp)
    ensures Expected(cp, length, genesis, head) <==>
      && cp.Dict? && |cp.members| == 3 && Field(cp, LENGTH) == Some(Int(length))
      && Field(cp, GENESIS) == Some(Str(genesis)) && Field(cp, HEAD) == Some(Str(head))
  {
    hide PyEqual, Get, Proper;
    if cp.Dict? {
      var w := CheckpointDict(length, genesis, head);
      DifferentNames("length", "genesis");
      DifferentNames("length", "head");
      DifferentNames("genesis", "head");
      ProperDictKeys(cp);
      EqualDicts(cp, w);
      CoversThree(cp, w);
      EqualStr(cp, GENESIS, genesis);
      EqualStr(cp, HEAD, head);
      if Has(cp, LENGTH) { EqualToInt(Field(cp, LENGTH).value, length); }
    }
  }

  lemma ProperDictKeys(v: Value)
    requires Proper(v) && v.Dict?
    ensures UniqueKeys(v.members)
  {}

  /** Without the type check, True would pass for the length of a chain of one record. */
  lemma TrueEqualsOne(genesis: Text, head: Text)
    ensures var cp := Dict([Member(LENGTH, Bool(true)), Member(GENESIS, Str(genesis)), Member(HEAD, Str(head))]);
      PyEqual(cp, CheckpointDict(1, genesis, head)) && !Expected(cp, 1, genesis, head)
  {
    hide Get;
    var w := CheckpointDict(1, genesis, head);
    var cp := Dict([Member(LENGTH, Bool(true)), Member(GENESIS, Str(genesis)), Member(HEAD, Str(head))]);
    DifferentNames("length", "genesis");
    DifferentNames("length", "head");
    DifferentNames("genesis", "head");
    GetUnique(w.members, w.members[0]);
    GetUnique(w.members, w.members[1]);
    GetUnique(w.members, w.members[2]);
    GetUnique(cp.members, cp.members[0]);
  }

  lemma CheckpointByDigests(p: Platform, rs: seq<Value>, key: Option<Bytes>, cp: Value)
    requires rs != [] && Verify(p, rs[0], key) && Verify(p, rs[|rs| - 1], key) && Proper(cp)
    ensures Digest(p, rs[0]).Some? && Digest(p, rs[|rs| - 1]).Some?
    ensures CheckpointOk(p, rs, key, cp) <==>
      key.Some? && Expected(cp, |rs|, Digest(p, rs[0]).value, Digest(p, rs[|rs| - 1]).value)
  {
    hide Verify, Digest, Proper, Expected;
    VerifiedFacts(p, rs[0], key);
    VerifiedFacts(p, rs[|rs| - 1], key);
    ExpectedIsCheckpoint(cp, |rs|, Digest(p, rs[0]).value, Digest(p, rs[|rs| - 1]).value);
  }

  method VerifyChain(p: Platform, records: Value, key: Option<Bytes>, checkpoint: Option<Value>) returns (ok: bool)
    requires Proper(records) && (checkpoint.Some? ==> Proper(checkpoint.value))
    ensures ok == Accepted(p, records, key, checkpoint)
  {
    hide Verify, LinkOk, IdOf, Digest, Field, Points, Expected, CheckpointOk;
    if !records.List? || records.items == [] {
      return false;
    }
    var rs := records.items;
    var seen: set<Text> := {};
    for i := 0 to |rs|
      invariant AllVerify(p, rs[..i], key) && DistinctIds(rs[..i]) && Linked(p, rs[..i])
      invariant seen == set j | 0 <= j < i :: IdOf(rs[j])
    {
      Extend(p, rs, key, i);
      if !Verify(p, rs[i], key) || IdOf(rs[i]) in seen {
        return false;
      }
      seen := seen + {IdOf(rs[i])};
      if i == 0 {
        if Has(rs[0], SUPERSEDES) {
          return false;
        }
      } else {
        assert rs[..i][i - 1] == rs[i - 1];
        PointsIsLink(p, rs[i - 1], rs[i], key);
        var sup := if Has(rs[i], SUPERSEDES) then Field(rs[i], SUPERSEDES).value else Dict([]);
        if !Points(sup, IdOf(rs[i - 1]), Digest(p, rs[i - 1]).value) {
          return false;
        }
      }
    }
    assert rs[..|rs|] == rs;
    if checkpoint.Some? {
      CheckpointByDigests(p, rs, key, checkpoint.value);
      if key.None? || !Expected(checkpoint.value, |rs|, Digest(p, rs[0]).value, Digest(p, rs[|rs| - 1]).value) {
        return false;
      }
    }
    return true;
  }

  /** One more record: what the loop checks is what the longer prefix needs. */
  lemma Extend(p: Platform, rs: seq<Value>, key: Option<Bytes>, i: nat)
    requires i < |rs|
    ensures AllVerify(p, rs[..i + 1], key) <==> AllVerify(p, rs[..i], key) && Verify(p, rs[i], key)
    ensures DistinctIds(rs[..i + 1]) <==> DistinctIds(rs[..i]) && forall j | 0 <= j < i :: IdOf(rs[j]) != IdOf(rs[i])
    ensures Linked(p, rs[..i + 1])
      <==> Linked(p, rs[..i]) && (if i == 0 then !Has(rs[0], SUPERSEDES) else LinkOk(p, rs[i - 1], rs[i]))
    ensures AllVerify(p, rs, key) ==> AllVerify(p, rs[..i + 1], key)
    ensures DistinctIds(rs) ==> DistinctIds(rs[..i + 1])
    ensures Linked(p, rs) ==> Linked(p, rs[..i + 1])
  {
    hide Verify, LinkOk, IdOf, Field;
    var a, b := rs[..i], rs[..i + 1];
    assert forall j | 0 <= j < i :: a[j] == b[j] == rs[j];
    assert b[i] == rs[i];
    if DistinctIds(a) && forall j | 0 <= j < i :: IdOf(rs[j]) != IdOf(rs[i]) {
      forall j, k | 0 <= j < k < |b| ensures IdOf(b[j]) != IdOf(b[k]) {
        if k < i { assert IdOf(a[j]) != IdOf(a[k]); }
      }
    }
    if DistinctIds(b) {
      forall j, k | 0 <= j < k < |a| ensures IdOf(a[j]) != IdOf(a[k]) { assert IdOf(b[j]) != IdOf(b[k]); }
      forall j | 0 <= j < i ensures IdOf(rs[j]) != IdOf(rs[i]) { assert IdOf(b[j]) != IdOf(b[i]); }
    }
  }

  // ---------- verification sees only canonical bytes ----------

  lemma BytesOfSimilar(p: Platform, v: Value, w: Value)
    requires Similar(v, w)
    ensures CanonicalBytes(p.repr, v) == CanonicalBytes(p.repr, w) && CanonicalBytes(p.repr, v).Some?
  {}

  lemma PayloadSimilar(v: Value, w: Value)
    requires Similar(v, w) && Has(v, SIGNATURE) && Has(w, SIGNATURE)
    requires Field(v, SIGNATURE).value.Dict? && Field(w, SIGNATURE).value.Dict?
    ensures Similar(Payload(v), Payload(w))
  {
    hide Normalise, Proper;
    SimilarDicts(v, w);
    SimilarAt(v, w, SIGNATURE);
    NameIsPlain("sig");
    NameIsPlain("signature");
    EmptyNormal();
    var s, t := Field(v, SIGNATURE).value, Field(w, SIGNATURE).value;
    PutAlike(s.members, t.members, SIG, Str([]), Str([]));
    PutAlike(v.members, w.members, SIGNATURE, Dict(Put(s.members, SIG, Str([]))), Dict(Put(t.members, SIG, Str([]))));
  }

  lemma EmptyNormal()
    ensures Normalise(Str([])) == Some(Str([])) && Proper(Str([]))
  {}

  /** Records with the same canonical bytes verify alike. */
  lemma VerifyOfSimilar(p: Platform, v: Value, w: Value, key: Option<Bytes>)
    requires Similar(v, w)
    ensures Verify(p, v, key) == Verify(p, w, key)
    ensures IdOf(v) == IdOf(w) && Has(v, SUPERSEDES) == Has(w, SUPERSEDES)
  {
    hide Similar, CanonicalBytes, DecodeExact, Payload;
    SchemaOfNormal(p, v, w);
    BytesOfSimilar(p, v, w);
    SimilarAt(v, w, CORRECTION_ID);
    SimilarAt(v, w, SUPERSEDES);
    SimilarAt(v, w, SIGNATURE);
    SimilarAt(v, w, AGENT);
    SimilarId(v, w);
    if SchemaOk(p, v) {
      SimilarMeta(p, v, w);
    }
  }

  lemma SimilarId(v: Value, w: Value)
    requires Similar(v, w)
    ensures IdOf(v) == IdOf(w)
  {
    hide Similar;
    SimilarAt(v, w, CORRECTION_ID);
    if Has(v, CORRECTION_ID) { SimilarDicts(Field(v, CORRECTION_ID).value, Field(w, CORRECTION_ID).value); }
  }

  /** What verify reads of two similar records beyond their bytes. */
  lemma SimilarMeta(p: Platform, v: Value, w: Value)
    requires Similar(v, w) && SchemaOk(p, v) && SchemaOk(p, w)
    ensures var s, t := Field(v, SIGNATURE).value, Field(w, SIGNATURE).value;
      && s.Dict? && t.Dict?
      && Field(s, PUBLIC_KEY) == Field(t, PUBLIC_KEY) && Field(s, SIG) == Field(t, SIG)
      && Has(Field(v, AGENT).value, PUBLIC_KEY) == Has(Field(w, AGENT).value, PUBLIC_KEY)
      && Field(Field(v, AGENT).value, PUBLIC_KEY) == Field(Field(w, AGENT).value, PUBLIC_KEY)
      && CanonicalBytes(p.repr, Payload(v)) == CanonicalBytes(p.repr, Payload(w))
  {
    hide Similar, CanonicalBytes, Payload, KindRulesOk, PrincipalOk, SupersedesOk, ActionOk, FixOk;
    SimilarAt(v, w, SIGNATURE);
    SimilarAt(v, w, AGENT);
    var s, t := Field(v, SIGNATURE).value, Field(w, SIGNATURE).value;
    var a, b := Field(v, AGENT).value, Field(w, AGENT).value;
    SimilarAt(s, t, PUBLIC_KEY);
    SimilarAt(s, t, SIG);
    SimilarAt(a, b, PUBLIC_KEY);
    PayloadSimilar(v, w);
    BytesOfSimilar(p, Payload(v), Payload(w));
  }

  /** Links between similar records hold alike. */
  lemma LinkOfSimilar(p: Platform, prev: Value, rec: Value, prev': Value, rec': Value)
    requires Similar(prev, prev') && Similar(rec, rec') && LinkOk(p, prev, rec)
    ensures LinkOk(p, prev', rec')
  {
    hide Similar, Digest, IdOf, PointsAt, Field;
    DigestOfSimilar(p, prev, prev');
    SimilarId(prev, prev');
    SimilarField(rec, rec', SUPERSEDES);
    SimilarPointer(Field(rec, SUPERSEDES).value, Field(rec', SUPERSEDES).value, IdOf(prev), Digest(p, prev));
  }

  lemma DigestOfSimilar(p: Platform, v: Value, w: Value)
    requires Similar(v, w)
    ensures Digest(p, v) == Digest(p, w)
  {
    BytesOfSimilar(p, v, w);
  }

  lemma SimilarPointer(s: Value, t: Value, id: Text, digest: Option<Text>)
    requires Similar(s, t)
    ensures PointsAt(s, id, digest) == PointsAt(t, id, digest)
  {
    hide Similar, EqualsHash;
    SimilarString(s, t, RECEIPT_ID, id);
    SimilarAt(s, t, DIGEST);
    if Has(s, DIGEST) && digest.Some? {
      SimilarHash(Field(s, DIGEST).value, Field(t, DIGEST).value, digest.value);
    } else {
      NoHash();
    }
  }

  lemma NoHash()
    ensures forall text :: !EqualsHash(None, text)
  {}

  lemma SimilarString(v: Value, w: Value, k: Text, s: Text)
    requires Similar(v, w)
    ensures (Field(v, k) == Some(Str(s))) == (Field(w, k) == Some(Str(s)))
  {
    hide Similar;
    SimilarAt(v, w, k);
    assert IsConst(Field(v, k), s) == IsConst(Field(w, k), s);
  }

  lemma SimilarHash(d: Value, e: Value, text: Text)
    requires Similar(d, e)
    ensures EqualsHash(Some(d), text) == EqualsHash(Some(e), text)
  {
    SimilarDicts(d, e);
    SimilarCount(d, e);
    hide Similar;
    SimilarString(d, e, ALG, SHA256);
    SimilarString(d, e, DIGEST, text);
  }

  lemma SimilarCount(d: Value, e: Value)
    requires Similar(d, e)
    ensures d.Dict? ==> e.Dict? && |d.members| == |e.members|
  {
    SimilarDicts(d, e);
    if d.Dict? {
      hide Normalise, Proper, Sort, NormaliseMember;
      NormaliseDict(d.members);
      NormaliseDict(e.members);
      MembersNormal(d.members);
      MembersNormal(e.members);
    }
  }

  predicate AllSimilar(rs: seq<Value>, ws: seq<Value>) {
    |rs| == |ws| && forall i | 0 <= i < |rs| :: Similar(rs[i], ws[i])
  }

  /** Replacing records by others with the same canonical bytes changes no verdict. */
  lemma ChainOfSimilar(p: Platform, rs: seq<Value>, ws: seq<Value>, key: Option<Bytes>)
    requires AllSimilar(rs, ws)
    ensures ChainOk(p, rs, key) == ChainOk(p, ws, key)
    ensures rs != [] ==> forall cp :: CheckpointOk(p, rs, key, cp) == CheckpointOk(p, ws, key, cp)
  {
    hide Similar, ChainOk, CheckpointOk;
    SimilarSymmetric(rs, ws);
    if ChainOk(p, rs, key) { SimilarChain(p, rs, ws, key); }
    if ChainOk(p, ws, key) { SimilarChain(p, ws, rs, key); }
    if rs != [] {
      forall cp ensures CheckpointOk(p, rs, key, cp) == CheckpointOk(p, ws, key, cp) {
        SimilarCheckpoint(p, rs, ws, key, cp);
      }
    }
  }

  lemma SimilarSymmetric(rs: seq<Value>, ws: seq<Value>)
    requires AllSimilar(rs, ws)
    ensures AllSimilar(ws, rs)
  {}

  lemma SimilarChain(p: Platform, rs: seq<Value>, ws: seq<Value>, key: Option<Bytes>)
    requires AllSimilar(rs, ws) && ChainOk(p, rs, key)
    ensures ChainOk(p, ws, key)
  {
    hide Similar, Verify, LinkOk, IdOf, Has;
    forall i | 0 <= i < |rs|
      ensures Verify(p, rs[i], key) == Verify(p, ws[i], key) && IdOf(rs[i]) == IdOf(ws[i])
      ensures Has(rs[i], SUPERSEDES) == Has(ws[i], SUPERSEDES)
    {
      VerifyOfSimilar(p, rs[i], ws[i], key);
    }
    forall i | 0 < i < |rs| ensures LinkOk(p, ws[i - 1], ws[i]) {
      LinkOfSimilar(p, rs[i - 1], rs[i], ws[i - 1], ws[i]);
    }
  }

  lemma SimilarCheckpoint(p: Platform, rs: seq<Value>, ws: seq<Value>, key: Option<Bytes>, cp: Value)
    requires AllSimilar(rs, ws) && rs != []
    ensures CheckpointOk(p, rs, key, cp) == CheckpointOk(p, ws, key, cp)
  {
    hide Similar, Digest, Field;
    DigestOfSimilar(p, rs[0], ws[0]);
    DigestOfSimilar(p, rs[|rs| - 1], ws[|ws| - 1]);
  }
}
