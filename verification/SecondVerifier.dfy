/** The standalone verifier's two entry points, step by step, against the core's verdicts. */
module SecondVerifier {
  import opened Wrappers
  import opened Text
  import opened Json
  import opened NormalForm
  import opened Fields
  import opened Render
  import opened Base64
  import opened Records
  import opened Equality
  import opened Chains
  import opened Binding
  import opened Standalone

  const INVALID := "invalid record, schema, key or signature"
  const AGENT_MISMATCH := "agent key mismatch"
  const UNTRUSTED := "untrusted signer"
  const PINNED := "valid under pinned key"
  const CONSISTENT := "signature consistency only; signer untrusted"
  const EMPTY := "empty or malformed chain"
  const DUPLICATE := "duplicate ID"
  const NO_GENESIS := "missing genesis"
  const BROKEN := "broken link"
  const NEEDS_KEY := "checkpoint requires trusted key and integer length"
  const MISMATCH := "checkpoint mismatch"
  const ACCEPTED := "consistent chain; completeness only relative to supplied trusted checkpoint"

  /** A pinned key is a key object: its bytes have been loaded. */
  predicate KeyObject(p: Platform, key: Option<Bytes>) {
    key.Some? ==> |key.value| == KEY_SIZE && p.keyLoads(key.value)
  }

  /** The key text of a signature, decoded. */
  function KeyBytes(v: Value): Option<Bytes>
    requires Field(v, SIGNATURE).Some?
    requires Field(Field(v, SIGNATURE).value, PUBLIC_KEY).Some? && Field(Field(v, SIGNATURE).value, PUBLIC_KEY).value.Str?
  {
    DecodeExact(Field(Field(v, SIGNATURE).value, PUBLIC_KEY).value.s, KEY_SIZE)
  }

  /** The agent's own key, when it names one, is the signature's. */
  predicate AgentAgrees(v: Value)
    requires Field(v, SIGNATURE).Some? && Field(v, AGENT).Some?
  {
    var agent := Field(v, AGENT).value;
    Has(agent, PUBLIC_KEY) ==> Field(agent, PUBLIC_KEY) == Field(Field(v, SIGNATURE).value, PUBLIC_KEY)
  }

  /** Who signed, as far as the schema, the key text and the agent's own key tell. */
  function Signer(p: Platform, v: Value): Option<Bytes> {
    if !SchemaOk(p, v) then None
    else
      SchemaParts(p, v);
      var raw :- KeyBytes(v);
      if AgentAgrees(v) then Some(raw) else None
  }

  /** The signature over the payload, under key. */
  predicate SignatureHolds(p: Platform, v: Value, key: Bytes)
    requires SchemaOk(p, v)
  {
    SchemaParts(p, v);
    var sig := DecodeExact(Field(Field(v, SIGNATURE).value, SIG).value.s, SIGNATURE_SIZE);
    var payload := CanonicalBytes(p.repr, Payload(v));
    sig.Some? && payload.Some? && p.verifies(key, sig.value, payload.value)
  }

  /** The core's verdict, regrouped as the standalone verifier takes it: the record itself need not
      be canonicalised, and a pinned key need not be loaded again. */
  lemma VerdictParts(p: Platform, v: Value, key: Option<Bytes>)
    requires Proper(v) && KeyObject(p, key)
    ensures Verify(p, v, key) <==>
      && Signer(p, v).Some? && var raw := Signer(p, v).value;
      (if key.Some? then key.value == raw else p.keyLoads(raw)) && SignatureHolds(p, v, raw)
  {
    hide CanonicalBytes, DecodeExact, Payload, Proper, B64Url;
    if SchemaOk(p, v) {
      PayloadExists(p, v);
      SchemaParts(p, v);
      hide SchemaOk;
      var raw := KeyBytes(v);
      if raw.Some? && key.Some? && B64Url(key.value) == B64Url(raw.value) {
        B64UrlInjective(key.value, raw.value);
      }
    }
  }

  lemma SchemaParts(p: Platform, v: Value)
    requires SchemaOk(p, v)
    ensures v.Dict? && Has(v, SIGNATURE) && Field(v, SIGNATURE).value.Dict? && Has(v, AGENT)
    ensures var meta := Field(v, SIGNATURE).value;
      Has(meta, SIG) && Field(meta, SIG).value.Str? && Has(meta, PUBLIC_KEY) && Field(meta, PUBLIC_KEY).value.Str?
  {
    hide KindRulesOk, AgentOk, PrincipalOk, SupersedesOk, ActionOk, FixOk;
  }

  // ---------- verify_record ----------

  method VerifyRecord(p: Platform, record: Value, pinned: Option<Bytes>) returns (ok: bool, reason: string)
    requires Rfc8785Law(p) && Proper(record) && KeyObject(p, pinned)
    ensures ok == Verify(p, record, pinned)
    ensures ok ==> reason == if pinned.Some? then PINNED else CONSISTENT
    ensures !ok ==> reason in [INVALID, AGENT_MISMATCH, UNTRUSTED]
    ensures reason == UNTRUSTED <==> pinned.Some? && Signer(p, record).Some? && Signer(p, record).value != pinned.value
    ensures reason == AGENT_MISMATCH <==>
      SchemaOk(p, record) && Signer(p, record).None? && KeyReads(p, record)
  {
    hide SchemaOk, CanonicalBytes, StandaloneBytes, DecodeExact, Verify, Rfc8785Law, Proper;
    VerdictParts(p, record, pinned);
    if !SchemaOk(p, record) {
      return false, INVALID;
    }
    SchemaParts(p, record);
    var signature := Field(record, SIGNATURE).value;
    var raw := KeyBytes(record);
    if raw.None? {
      return false, INVALID;
    }
    if !AgentAgrees(record) {
      return false, AGENT_MISMATCH;
    }
    var key := raw.value;
    if pinned.Some? {
      if pinned.value != raw.value {
        return false, UNTRUSTED;
      }
      key := pinned.value;
    } else if !p.keyLoads(raw.value) {
      return false, INVALID;
    }
    var payload := record.members;
    payload := Put(payload, SIGNATURE, Dict(Put(signature.members, SIG, Str([]))));
    PayloadProper(record);
    BytesAgree(p, Dict(payload));
    var sig := DecodeExact(Field(signature, SIG).value.s, SIGNATURE_SIZE);
    var data := StandaloneBytes(p, Dict(payload));
    if sig.None? || data.None? || !p.verifies(key, sig.value, data.value) {
      return false, INVALID;
    }
    return true, if pinned.Some? then PINNED else CONSISTENT;
  }

  predicate KeyReads(p: Platform, v: Value)
    requires SchemaOk(p, v)
  {
    SchemaParts(p, v);
    KeyBytes(v).Some?
  }

  lemma PayloadProper(v: Value)
    requires Proper(v) && Has(v, SIGNATURE) && Field(v, SIGNATURE).value.Dict?
    ensures Proper(Payload(v))
  {
    hide Proper;
    FieldProper(v, SIGNATURE);
    EmptyNormal();
    PutProper(Field(v, SIGNATURE).value.members, SIG, Str([]));
    PutProper(v.members, SIGNATURE, Dict(Put(Field(v, SIGNATURE).value.members, SIG, Str([]))));
  }

  // ---------- verify_chain ----------

  method VerifyChain(p: Platform, records: Value, pinned: Option<Bytes>, checkpoint: Option<Value>)
    returns (ok: bool, reason: string)
    requires Rfc8785Law(p) && Proper(records) && KeyObject(p, pinned)
    requires checkpoint.Some? ==> Proper(checkpoint.value)
    ensures ok == Accepted(p, records, pinned, checkpoint)
    ensures reason in [ACCEPTED, NEEDS_KEY, MISMATCH] <==> records.List? && ChainOk(p, records.items, pinned)
  {
    hide Verify, LinkOk, IdOf, Digest, Field, Points, CheckpointOk, Rfc8785Law, Signer, SchemaOk;
    if !records.List? || records.items == [] {
      return false, EMPTY;
    }
    var rs := records.items;
    var identifiers: set<Text> := {};
    for i := 0 to |rs|
      invariant AllVerify(p, rs[..i], pinned) && DistinctIds(rs[..i]) && Linked(p, rs[..i])
      invariant identifiers == set j | 0 <= j < i :: IdOf(rs[j])
    {
      Extend(p, rs, pinned, i);
      ok, reason := VerifyRecord(p, rs[i], pinned);
      if !ok {
        return false, reason;
      }
      if IdOf(rs[i]) in identifiers {
        return false, DUPLICATE;
      }
      identifiers := identifiers + {IdOf(rs[i])};
      if i == 0 {
        if Has(rs[0], SUPERSEDES) {
          return false, NO_GENESIS;
        }
      } else {
        assert rs[..i][i - 1] == rs[i - 1];
        PointsIsLink(p, rs[i - 1], rs[i], pinned);
        DigestAgrees(p, rs[i - 1]);
        var sup := if Has(rs[i], SUPERSEDES) then Field(rs[i], SUPERSEDES).value else Dict([]);
        if !Points(sup, IdOf(rs[i - 1]), StandaloneDigest(p, rs[i - 1]).value) {
          return false, BROKEN;
        }
      }
    }
    assert rs[..|rs|] == rs;
    if checkpoint.Some? {
      var cp := checkpoint.value;
      CheckpointByDigests(p, rs, pinned, cp);
      DigestAgrees(p, rs[0]);
      DigestAgrees(p, rs[|rs| - 1]);
      if pinned.None? || !Typed(cp) {
        return false, NEEDS_KEY;
      }
      if !PyEqual(cp, CheckpointDict(|rs|, StandaloneDigest(p, rs[0]).value, StandaloneDigest(p, rs[|rs| - 1]).value)) {
        return false, MISMATCH;
      }
    }
    return true, ACCEPTED;
  }

  lemma DigestAgrees(p: Platform, v: Value)
    requires Rfc8785Law(p) && Proper(v)
    ensures StandaloneDigest(p, v) == Digest(p, v)
  {
    hide CanonicalBytes, StandaloneBytes, Rfc8785Law, Proper;
    BytesAgree(p, v);
  }
}
