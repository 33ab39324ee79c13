/** What an accepted chain commits to: its past, by digest; its order, by identifiers alone. */
module Binding {
  import opened Wrappers
  import opened Text
  import opened Numbers
  import opened Json
  import opened NormalForm
  import opened Render
  import opened Base64
  import opened Records
  import opened Chains

  predicate AllProper(rs: seq<Value>) { forall i | 0 <= i < |rs| :: Proper(rs[i]) }

  /** The records' canonical bytes agree on the first n positions. */
  predicate SamePast(p: Platform, rs: seq<Value>, ws: seq<Value>, n: nat)
    requires n <= |rs| && n <= |ws|
  {
    forall i | 0 <= i < n :: CanonicalBytes(p.repr, rs[i]) == CanonicalBytes(p.repr, ws[i])
  }

  /** Two different canonical byte strings with the same SHA-256 digest. */
  predicate Collide(p: Platform, v: Value, w: Value) {
    var a, b := CanonicalBytes(p.repr, v), CanonicalBytes(p.repr, w);
    a.Some? && b.Some? && a != b && p.sha256(a.value) == p.sha256(b.value)
  }

  // ---------- the past is bound by digests ----------

  lemma SimilarByBytes(p: Platform, v: Value, w: Value)
    requires Proper(v) && Proper(w) && ReprLaw(p.repr)
    requires CanonicalBytes(p.repr, v).Some? && CanonicalBytes(p.repr, v) == CanonicalBytes(p.repr, w)
    ensures Similar(v, w)
  {
    hide CanonicalBytes, Normalise, Proper, ReprLaw;
    BytesInjective(p.repr, v, w);
    BytesExist(p.repr, v);
  }

  /** A link text cannot point at two digests, nor at two identifiers. */
  lemma LinkUnique(p: Platform, prev: Value, rec: Value, prev': Value, rec': Value)
    requires Similar(rec, rec') && LinkOk(p, prev, rec) && LinkOk(p, prev', rec')
    ensures Digest(p, prev).Some? && Digest(p, prev) == Digest(p, prev') && IdOf(prev) == IdOf(prev')
  {
    hide Similar, Digest, IdOf, Field;
    SimilarField(rec, rec', SUPERSEDES);
    var s, t := Field(rec, SUPERSEDES).value, Field(rec', SUPERSEDES).value;
    SimilarPointer(s, t, IdOf(prev), Digest(p, prev));
    assert PointsAt(t, IdOf(prev), Digest(p, prev)) && PointsAt(t, IdOf(prev'), Digest(p, prev'));
  }

  lemma SameDigest(p: Platform, v: Value, w: Value)
    requires Lawful(p) && Digest(p, v).Some? && Digest(p, v) == Digest(p, w)
    ensures CanonicalBytes(p.repr, v) == CanonicalBytes(p.repr, w) || Collide(p, v, w)
  {
    hide CanonicalBytes, B64Url;
    var a, b := CanonicalBytes(p.repr, v).value, CanonicalBytes(p.repr, w).value;
    B64UrlInjective(p.sha256(a), p.sha256(b));
  }

  /** Canonically equal records in two accepted chains stand at the same position over the same
      past; otherwise, going back d records from both exhibits a digest collision. */
  lemma {:induction false} PastBound(p: Platform, rs: seq<Value>, i: nat, ws: seq<Value>, j: nat,
                                     key: Option<Bytes>, key': Option<Bytes>)
    returns (clash: Option<nat>)
    requires Lawful(p) && AllProper(rs) && AllProper(ws)
    requires ChainOk(p, rs, key) && ChainOk(p, ws, key') && i < |rs| && j < |ws|
    requires CanonicalBytes(p.repr, rs[i]) == CanonicalBytes(p.repr, ws[j])
    ensures clash.None? ==> i == j && SamePast(p, rs, ws, i + 1)
    ensures clash.Some? ==>
      var d := clash.value; 0 < d <= i && d <= j && Collide(p, rs[i - d], ws[j - d])
  {
    hide CanonicalBytes, Proper, LinkOk, ChainOk, Digest, Similar, Collide, Has, Lawful;
    LawfulRepr(p);
    SimilarInChain(p, rs, i, ws, j, key);
    Position(p, rs, i, key);
    Position(p, ws, j, key');
    if i == 0 || j == 0 {
      return None;
    }
    LinkUnique(p, rs[i - 1], rs[i], ws[j - 1], ws[j]);
    SameDigest(p, rs[i - 1], ws[j - 1]);
    if Collide(p, rs[i - 1], ws[j - 1]) {
      return Some(1);
    }
    clash := PastBound(p, rs, i - 1, ws, j - 1, key, key');
    if clash.Some? {
      clash := Some(clash.value + 1);
    }
  }

  lemma SimilarInChain(p: Platform, rs: seq<Value>, i: nat, ws: seq<Value>, j: nat, key: Option<Bytes>)
    requires ReprLaw(p.repr) && AllProper(rs) && AllProper(ws)
    requires ChainOk(p, rs, key) && i < |rs| && j < |ws|
    requires CanonicalBytes(p.repr, rs[i]) == CanonicalBytes(p.repr, ws[j])
    ensures Similar(rs[i], ws[j]) && Has(rs[i], SUPERSEDES) == Has(ws[j], SUPERSEDES)
  {
    hide CanonicalBytes, Proper, Linked, DistinctIds, Verify, Digest, Similar, ReprLaw;
    VerifiedFacts(p, rs[i], key);
    SimilarByBytes(p, rs[i], ws[j]);
    SimilarAtSupersedes(rs[i], ws[j]);
  }

  /** Only the first record of a chain has no link. */
  lemma Position(p: Platform, rs: seq<Value>, i: nat, key: Option<Bytes>)
    requires ChainOk(p, rs, key) && i < |rs|
    ensures i == 0 <==> !Has(rs[i], SUPERSEDES)
    ensures 0 < i ==> LinkOk(p, rs[i - 1], rs[i])
  {
    hide AllVerify, DistinctIds;
    if 0 < i { LinkedAt(p, rs, i); }
  }

  lemma LawfulRepr(p: Platform)
    requires Lawful(p)
    ensures ReprLaw(p.repr)
  {}

  lemma SimilarAtSupersedes(v: Value, w: Value)
    requires Similar(v, w)
    ensures Has(v, SUPERSEDES) == Has(w, SUPERSEDES)
  {
    SimilarField(v, w, SUPERSEDES);
  }

  lemma LinkedAt(p: Platform, rs: seq<Value>, i: nat)
    requires Linked(p, rs) && 0 < i < |rs|
    ensures LinkOk(p, rs[i - 1], rs[i]) && Has(rs[i], SUPERSEDES) && !Has(rs[0], SUPERSEDES)
  {}

  /** The digest of the last record fixes the length, the genesis and every record, up to an
      exhibited collision. */
  lemma HeadBinds(p: Platform, rs: seq<Value>, ws: seq<Value>, key: Option<Bytes>, key': Option<Bytes>)
    returns (clash: Option<nat>)
    requires Lawful(p) && AllProper(rs) && AllProper(ws)
    requires ChainOk(p, rs, key) && ChainOk(p, ws, key')
    requires Digest(p, rs[|rs| - 1]) == Digest(p, ws[|ws| - 1])
    ensures clash.None? ==> |rs| == |ws| && SamePast(p, rs, ws, |rs|)
    ensures clash.Some? ==> var d := clash.value;
      d < |rs| && d < |ws| && Collide(p, rs[|rs| - 1 - d], ws[|ws| - 1 - d])
  {
    hide CanonicalBytes, ChainOk, Digest, Collide, SamePast, Lawful;
    NonEmptyChain(p, rs, key);
    NonEmptyChain(p, ws, key');
    SameDigest(p, rs[|rs| - 1], ws[|ws| - 1]);
    if Collide(p, rs[|rs| - 1], ws[|ws| - 1]) {
      return Some(0);
    }
    clash := PastBound(p, rs, |rs| - 1, ws, |ws| - 1, key, key');
  }

  /** A chain accepted with a checkpoint is the chain the checkpoint was made from, canonically, or
      a collision is exhibited. */
  lemma CheckpointBinds(p: Platform, rs: seq<Value>, ws: seq<Value>, key: Option<Bytes>, cp: Value)
    returns (clash: Option<nat>)
    requires Lawful(p) && AllProper(rs) && AllProper(ws)
    requires Checkpoint(p, rs) == Some(cp) && Accepted(p, List(ws), key, Some(cp))
    ensures |rs| == |ws|
    ensures clash.None? ==> SamePast(p, rs, ws, |rs|)
    ensures clash.Some? ==> var d := clash.value;
      d < |rs| && Collide(p, rs[|rs| - 1 - d], ws[|ws| - 1 - d])
  {
    hide ChainOk, Digest, SamePast, Collide;
    CheckpointFields(p, rs, cp);
    NonEmptyChain(p, rs, None);
    clash := HeadBinds(p, rs, ws, None, key);
  }

  lemma NonEmptyChain(p: Platform, rs: seq<Value>, key: Option<Bytes>)
    requires ChainOk(p, rs, key)
    ensures rs != [] && Digest(p, rs[0]).Some? && Digest(p, rs[|rs| - 1]).Some?
  {
    hide Verify, Digest, IdOf, Linked;
    VerifiedFacts(p, rs[0], key);
    VerifiedFacts(p, rs[|rs| - 1], key);
  }

  lemma CheckpointFields(p: Platform, rs: seq<Value>, cp: Value)
    requires Checkpoint(p, rs) == Some(cp)
    ensures ChainOk(p, rs, None) && rs != [] && cp.Dict? && |cp.members| == 3
    ensures Field(cp, LENGTH) == Some(Int(|rs|))
    ensures Digest(p, rs[0]).Some? && Field(cp, GENESIS) == Some(Str(Digest(p, rs[0]).value))
    ensures Digest(p, rs[|rs| - 1]).Some? && Field(cp, HEAD) == Some(Str(Digest(p, rs[|rs| - 1]).value))
  {
    hide Digest, ChainOk;
    NonEmptyChain(p, rs, None);
    DifferentNames("length", "genesis");
    DifferentNames("length", "head");
    DifferentNames("genesis", "head");
    ThreeFields(LENGTH, Int(|rs|), GENESIS, Str(Digest(p, rs[0]).value), HEAD, Str(Digest(p, rs[|rs| - 1]).value));
  }

  lemma ThreeFields(a: Text, x: Value, b: Text, y: Value, c: Text, z: Value)
    requires a != b && a != c && b != c
    ensures var d := Dict([Member(a, x), Member(b, y), Member(c, z)]);
      Field(d, a) == Some(x) && Field(d, b) == Some(y) && Field(d, c) == Some(z) && UniqueKeys(d.members)
  {
    var ms := [Member(a, x), Member(b, y), Member(c, z)];
    GetUnique(ms, ms[0]);
    GetUnique(ms, ms[1]);
    GetUnique(ms, ms[2]);
  }

  // ---------- the order is bound by identifiers ----------

  /** Which record of rs a record equals canonically. */
  predicate OccursIn(p: Platform, w: Value, rs: seq<Value>) {
    exists m | 0 <= m < |rs| :: CanonicalBytes(p.repr, rs[m]) == CanonicalBytes(p.repr, w)
  }

  lemma {:induction false} InPlace(p: Platform, rs: seq<Value>, ws: seq<Value>, key: Option<Bytes>, key': Option<Bytes>, i: nat)
    requires ReprLaw(p.repr) && AllProper(rs) && AllProper(ws)
    requires ChainOk(p, rs, key) && ChainOk(p, ws, key') && i < |ws|
    requires forall w | w in ws :: OccursIn(p, w, rs)
    ensures i < |rs| && Similar(rs[i], ws[i])
  {
    hide CanonicalBytes, Proper, LinkOk, ChainOk, IdOf, Digest, Similar, Has, ReprLaw;
    assert ws[i] in ws;
    var m :| 0 <= m < |rs| && CanonicalBytes(p.repr, rs[m]) == CanonicalBytes(p.repr, ws[i]);
    SimilarInChain(p, rs, m, ws, i, key);
    Position(p, rs, m, key);
    Position(p, ws, i, key');
    if i != 0 && m != 0 {
      LinkUnique(p, rs[m - 1], rs[m], ws[i - 1], ws[i]);
      InPlace(p, rs, ws, key, key', i - 1);
      SimilarId(rs[i - 1], ws[i - 1]);
      IdsDiffer(p, rs, key, i - 1, m - 1);
    }
  }

  lemma IdsDiffer(p: Platform, rs: seq<Value>, key: Option<Bytes>, i: nat, j: nat)
    requires ChainOk(p, rs, key) && i < |rs| && j < |rs| && IdOf(rs[i]) == IdOf(rs[j])
    ensures i == j
  {
    hide AllVerify, Linked, IdOf;
  }

  /** An accepted list of records that all occur, canonically, in an accepted chain is canonically
      a prefix of it. No property of the digest is used. */
  lemma SubchainIsPrefix(p: Platform, rs: seq<Value>, ws: seq<Value>, key: Option<Bytes>, key': Option<Bytes>)
    requires ReprLaw(p.repr) && AllProper(rs) && AllProper(ws)
    requires ChainOk(p, rs, key) && ChainOk(p, ws, key')
    requires forall w | w in ws :: OccursIn(p, w, rs)
    ensures |ws| <= |rs| && SamePast(p, rs, ws, |ws|)
  {
    hide ChainOk, OccursIn, CanonicalBytes, Similar, ReprLaw;
    forall i | 0 <= i < |ws|
      ensures i < |rs| && CanonicalBytes(p.repr, rs[i]) == CanonicalBytes(p.repr, ws[i])
    {
      InPlace(p, rs, ws, key, key', i);
      BytesOfSimilar(p, rs[i], ws[i]);
    }
    if ws != [] { InPlace(p, rs, ws, key, key', |ws| - 1); }
  }

  lemma {:induction false} PrefixAccepted(p: Platform, rs: seq<Value>, key: Option<Bytes>, n: nat)
    requires ChainOk(p, rs, key) && 0 < n <= |rs|
    ensures ChainOk(p, rs[..n], key)
  {
    hide Verify, IdOf, LinkOk, Has;
    var ws := rs[..n];
    forall i, j | 0 <= i < j < |ws| ensures IdOf(ws[i]) != IdOf(ws[j]) {
      assert IdOf(rs[i]) != IdOf(rs[j]);
    }
  }

  /** Of the lists made of an accepted chain's records, exactly its nonempty prefixes are accepted:
      no reordering, interior deletion, suffix, repetition or self-reference is. */
  lemma AcceptedViews(p: Platform, rs: seq<Value>, ws: seq<Value>, key: Option<Bytes>)
    requires ReprLaw(p.repr) && AllProper(rs)
    requires ChainOk(p, rs, key) && forall w | w in ws :: w in rs
    ensures ChainOk(p, ws, key) <==> ws != [] && ws <= rs
  {
    hide ChainOk, Proper, ReprLaw;
    if ws != [] && ws <= rs {
      PrefixAccepted(p, rs, key, |ws|);
      assert rs[..|ws|] == ws;
    }
    if ChainOk(p, ws, key) {
      forall i | 0 <= i < |ws| ensures i < |rs| && ws[i] == rs[i] {
        ViewInPlace(p, rs, ws, key, i);
      }
      NonEmptyChain(p, ws, key);
      ViewInPlace(p, rs, ws, key, |ws| - 1);
    }
  }

  lemma ViewInPlace(p: Platform, rs: seq<Value>, ws: seq<Value>, key: Option<Bytes>, i: nat)
    requires ReprLaw(p.repr) && AllProper(rs)
    requires ChainOk(p, rs, key) && ChainOk(p, ws, key) && i < |ws| && forall w | w in ws :: w in rs
    ensures i < |rs| && ws[i] == rs[i]
  {
    hide ChainOk, CanonicalBytes, Proper, Similar, ReprLaw;
    forall w | w in ws ensures Proper(w) && OccursIn(p, w, rs) {
      var m :| 0 <= m < |rs| && rs[m] == w;
    }
    InPlace(p, rs, ws, key, key, i);
    SimilarId(rs[i], ws[i]);
    assert ws[i] in ws;
    var m :| 0 <= m < |rs| && rs[m] == ws[i];
    IdsDiffer(p, rs, key, m, i);
  }

  // ---------- what stands where ----------

  /** Only the first record of an accepted chain can be an action or a declaration of uncertainty, and
      it is no correction; every later one is a correction with a reason, an action and a fix. */
  lemma ChainKinds(p: Platform, rs: seq<Value>, key: Option<Bytes>, i: nat)
    requires ChainOk(p, rs, key) && i < |rs|
    ensures var r := rs[i];
      if i == 0 then Field(r, KIND) != Some(Str(CORRECTION))
      else
        && Field(r, KIND) in [None, Some(Str(CORRECTION))]
        && Has(r, ACTION) && Has(r, TRIGGER) && Has(r, FIX)
        && Has(r, REASON) && Field(r, REASON) != Some(Str([]))
  {
    hide Linked, DistinctIds;
    Position(p, rs, i, key);
    hide CanonicalBytes, LinkOk, Payload, DecodeExact;
    assert Verify(p, rs[i], key);
    KindsOfSchema(p, rs[i]);
  }

  lemma KindsOfSchema(p: Platform, v: Value)
    requires SchemaOk(p, v)
    ensures Has(v, SUPERSEDES) ==>
      && Field(v, KIND) in [None, Some(Str(CORRECTION))] && Has(v, ACTION) && Has(v, TRIGGER) && Has(v, FIX)
      && Has(v, REASON) && Field(v, REASON) != Some(Str([]))
    ensures !Has(v, SUPERSEDES) ==> Field(v, KIND) != Some(Str(CORRECTION))
  {
    hide Get, AgentOk, PrincipalOk, SupersedesOk, ActionOk, FixOk, SignatureOk;
  }
}
