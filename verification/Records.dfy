/** Agent Correction Records: their schema, their digest, and the verification of one record. */
module Records {
  import opened Wrappers
  import opened Text
  import opened Numbers
  import opened Json
  import opened NormalForm
  import opened Fields
  import opened Render
  import opened Base64

  // ---------- what the program takes from its libraries ----------

  /** SHA-256, Ed25519 over raw 32-byte keys, the schema library's date-time check, the encoding of
      str(x), and the rfc8785 library that the standalone verifier delegates to. */
  datatype Platform = Platform(
    repr: Repr,
    sha256: Bytes -> Bytes,
    publicKey: Bytes -> Bytes,
    sign: (Bytes, Bytes) -> Bytes,
    verifies: (Bytes, Bytes, Bytes) -> bool,
    keyLoads: Bytes -> bool,
    dateTime: Text -> bool,
    encodeStr: Value -> Option<Bytes>,
    rfc8785: Value -> Option<Bytes>)

  const KEY_SIZE: nat := 32
  const SIGNATURE_SIZE: nat := 64
  const DIGEST_SIZE: nat := 32

  /** An honest signature verifies, and sizes are as specified; nothing else is assumed. In
      particular the digest may collide. */
  ghost predicate Lawful(p: Platform) {
    && ReprLaw(p.repr)
    && (forall b: Bytes :: |p.sha256(b)| == DIGEST_SIZE)
    && (forall seed: Bytes | |seed| == KEY_SIZE :: |p.publicKey(seed)| == KEY_SIZE && p.keyLoads(p.publicKey(seed)))
    && (forall seed: Bytes, m: Bytes | |seed| == KEY_SIZE ::
          |p.sign(seed, m)| == SIGNATURE_SIZE && p.verifies(p.publicKey(seed), p.sign(seed, m), m))
  }

  // ---------- names ----------

  const CORRECTION_ID := T("correctionId")
  const AGENT := T("agent")
  const PRINCIPAL := T("principal")
  const SUPERSEDES := T("supersedes")
  const ACTION := T("action")
  const REASON := T("reason")
  const TRIGGER := T("trigger")
  const FIX := T("fix")
  const TIMESTAMP := T("timestamp")
  const METADATA := T("metadata")
  const SIGNATURE := T("signature")
  const KIND := T("kind")
  const SUBJECT := T("subject")
  const NOTE := T("note")
  const ID := T("id")
  const NAME := T("name")
  const VERSION := T("version")
  const TYPE := T("type")
  const TARGET := T("target")
  const PUBLIC_KEY := T("publicKey")
  const RECEIPT_ID := T("receiptId")
  const DIGEST := T("digest")
  const ALG := T("alg")
  const KID := T("kid")
  const CANONICALIZATION := T("canonicalization")
  const SIG := T("sig")
  const CONTENT_HASH := T("contentHash")
  const SOURCE := T("source")
  const REFERENCE := T("reference")
  const SHA256 := T("sha256")
  const ED25519 := T("Ed25519")
  const RFC8785 := T("RFC8785")
  const UNKNOWN := T("unknown")
  const CORRECTION := T("correction")
  const TRIGGERS := [T("supersede"), T("check_failed"), T("human_flagged"), T("self_correction")]
  const FIX_TYPES := [T("replace"), T("delete"), T("rollback"), T("noop"), T("other")]
  const SOURCE_TYPES := [T("schema"), T("document"), T("database"), T("api"), T("human"), T("other")]

  /** Different literals are different texts. */
  lemma DifferentNames(a: string, b: string)
    ensures T(a) == T(b) <==> a == b
  {
    if T(a) == T(b) {
      assert |a| == |b|;
      forall i | 0 <= i < |a| ensures a[i] == b[i] {
        assert T(a)[i] == T(b)[i];
      }
    }
  }

  lemma NameIsPlain(a: string)
    requires forall i | 0 <= i < |a| :: a[i] < 128 as char
    ensures SurrogateFree(T(a))
  {}

  // ---------- schema/acr-v1.json ----------

  /** A property that is absent, or a string of at least min characters. */
  predicate StringProp(o: Option<Value>, min: nat) {
    o.Some? ==> o.value.Str? && min <= |o.value.s|
  }

  /** A property that is absent, or one of the given strings. */
  predicate EnumProp(o: Option<Value>, choices: seq<Text>) {
    o.Some? ==> o.value.Str? && o.value.s in choices
  }

  predicate IsConst(o: Option<Value>, c: Text) { o == Some(Str(c)) }

  /** A property that is absent, or matches ^[A-Za-z0-9_-]{n}$; Python's $ also matches before a
      final newline. */
  predicate PatternProp(o: Option<Value>, n: nat) {
    o.Some? ==> o.value.Str? && MatchesUrl(o.value.s, n)
  }

  predicate MatchesUrl(t: Text, n: nat) {
    && (|t| == n || (|t| == n + 1 && t[n] == 0x0A))
    && forall i | 0 <= i < n :: UrlChar(t[i])
  }

  predicate Has(v: Value, k: Text) { Field(v, k).Some? }

  predicate AgentOk(a: Value) {
    && a.Dict? && Has(a, ID) && StringProp(Field(a, ID), 1) && StringProp(Field(a, NAME), 0)
    && StringProp(Field(a, VERSION), 0) && PatternProp(Field(a, PUBLIC_KEY), 43)
  }

  predicate PrincipalOk(a: Value) {
    a.Dict? && Has(a, ID) && Has(a, TYPE) && StringProp(Field(a, ID), 1) && StringProp(Field(a, TYPE), 0)
  }

  predicate DigestOk(d: Value) {
    && d.Dict? && Has(d, ALG) && Has(d, DIGEST) && IsConst(Field(d, ALG), SHA256)
    && PatternProp(Field(d, DIGEST), 43)
  }

  predicate SupersedesOk(s: Value) {
    && s.Dict? && Has(s, RECEIPT_ID) && Has(s, DIGEST) && StringProp(Field(s, RECEIPT_ID), 1)
    && DigestOk(Field(s, DIGEST).value)
  }

  predicate ActionOk(a: Value) {
    a.Dict? && Has(a, TYPE) && StringProp(Field(a, TYPE), 1) && StringProp(Field(a, TARGET), 0)
  }

  predicate ContentHashOk(h: Value) {
    h.Dict? && Has(h, ALG) && Has(h, DIGEST) && StringProp(Field(h, ALG), 0) && StringProp(Field(h, DIGEST), 16)
  }

  predicate SourceOk(s: Value) {
    && s.Dict? && Has(s, TYPE) && Has(s, REFERENCE) && EnumProp(Field(s, TYPE), SOURCE_TYPES)
    && StringProp(Field(s, REFERENCE), 1)
  }

  predicate FixOk(f: Value) {
    && f.Dict? && Has(f, TYPE) && EnumProp(Field(f, TYPE), FIX_TYPES) && StringProp(Field(f, NOTE), 0)
    && (Has(f, CONTENT_HASH) ==> ContentHashOk(Field(f, CONTENT_HASH).value))
    && (Has(f, SOURCE) ==> SourceOk(Field(f, SOURCE).value))
  }

  predicate SignatureOk(s: Value) {
    && s.Dict? && Has(s, ALG) && Has(s, KID) && Has(s, CANONICALIZATION) && Has(s, SIG) && Has(s, PUBLIC_KEY)
    && IsConst(Field(s, ALG), ED25519) && StringProp(Field(s, KID), 1) && PatternProp(Field(s, PUBLIC_KEY), 43)
    && IsConst(Field(s, CANONICALIZATION), RFC8785) && PatternProp(Field(s, SIG), 86)
  }

  predicate PropertiesOk(p: Platform, v: Value) {
    && StringProp(Field(v, CORRECTION_ID), 1)
    && (Has(v, AGENT) ==> AgentOk(Field(v, AGENT).value))
    && (Has(v, PRINCIPAL) ==> PrincipalOk(Field(v, PRINCIPAL).value))
    && (Has(v, SUPERSEDES) ==> SupersedesOk(Field(v, SUPERSEDES).value))
    && (Has(v, ACTION) ==> ActionOk(Field(v, ACTION).value))
    && StringProp(Field(v, REASON), 0)
    && EnumProp(Field(v, TRIGGER), TRIGGERS)
    && (Has(v, FIX) ==> FixOk(Field(v, FIX).value))
    && StringProp(Field(v, TIMESTAMP), 0) && (Has(v, TIMESTAMP) ==> p.dateTime(Field(v, TIMESTAMP).value.s))
    && (Has(v, SIGNATURE) ==> SignatureOk(Field(v, SIGNATURE).value))
    && (Has(v, METADATA) ==> Field(v, METADATA).value.Dict?)
    && EnumProp(Field(v, KIND), [ACTION, CORRECTION, UNKNOWN])
    && StringProp(Field(v, SUBJECT), 1)
    && StringProp(Field(v, NOTE), 0)
  }

  /** The conditional rules on kind and supersedes. */
  predicate KindRulesOk(v: Value) {
    && (if IsConst(Field(v, KIND), UNKNOWN)
        then Has(v, SUBJECT) && !Has(v, SUPERSEDES) && !Has(v, FIX) && !Has(v, ACTION)
        else Has(v, ACTION) && Has(v, REASON) && Has(v, TRIGGER) && Has(v, FIX))
    && (Has(v, SUPERSEDES) ==> StringProp(Field(v, REASON), 1) && (Has(v, KIND) ==> IsConst(Field(v, KIND), CORRECTION)))
    && (IsConst(Field(v, KIND), CORRECTION) ==> Has(v, SUPERSEDES))
    && (IsConst(Field(v, KIND), ACTION) ==> !Has(v, SUPERSEDES))
  }

  predicate SchemaOk(p: Platform, v: Value) {
    && v.Dict? && Has(v, CORRECTION_ID) && Has(v, AGENT) && Has(v, PRINCIPAL) && Has(v, TIMESTAMP) && Has(v, SIGNATURE)
    && PropertiesOk(p, v) && KindRulesOk(v)
  }

  // ---------- verification of a record ----------

  /** load_public_key. */
  function LoadPublicKey(p: Platform, t: Text): Option<Bytes> {
    var raw :- DecodeExact(t, KEY_SIZE);
    if p.keyLoads(raw) then Some(raw) else None
  }

  /** validate_record. */
  predicate ValidRecord(p: Platform, v: Value) { SchemaOk(p, v) && CanonicalBytes(p.repr, v).Some? }

  /** The record with an empty signature text, which is what is signed. */
  function Payload(v: Value): Value
    requires Field(v, SIGNATURE).Some? && Field(v, SIGNATURE).value.Dict?
  {
    Dict(Put(v.members, SIGNATURE, Dict(Put(Field(v, SIGNATURE).value.members, SIG, Str([])))))
  }

  /** verify up to its exceptions, which all become False. */
  predicate Verify(p: Platform, v: Value, key: Option<Bytes>) {
    && ValidRecord(p, v)
    && var meta := Field(v, SIGNATURE).value;
    var keyText := Field(meta, PUBLIC_KEY).value.s;
    var embedded := LoadPublicKey(p, keyText);
    && embedded.Some?
    && (Has(Field(v, AGENT).value, PUBLIC_KEY) ==> Field(Field(v, AGENT).value, PUBLIC_KEY) == Some(Str(keyText)))
    && (key.Some? ==> B64Url(key.value) == B64Url(embedded.value))
    && var sig := DecodeExact(Field(meta, SIG).value.s, SIGNATURE_SIZE);
    var payload := CanonicalBytes(p.repr, Payload(v));
    && sig.Some? && payload.Some?
    && p.verifies(if key.Some? then key.value else embedded.value, sig.value, payload.value)
  }

  /** verify_trusted. */
  predicate VerifyTrusted(p: Platform, v: Value, key: Option<Bytes>) { key.Some? && Verify(p, v, key) }

  /** The digest text of _hash_object over a record's canonical bytes. */
  function Digest(p: Platform, v: Value): Option<Text> {
    var b :- CanonicalBytes(p.repr, v);
    Some(B64Url(p.sha256(b)))
  }

  /** A record's correctionId. */
  function IdOf(v: Value): Text {
    match Field(v, CORRECTION_ID)
    case Some(Str(s)) => s
    case _ => []
  }

  lemma VerifiedId(p: Platform, v: Value, key: Option<Bytes>)
    requires Verify(p, v, key)
    ensures Field(v, CORRECTION_ID) == Some(Str(IdOf(v))) && IdOf(v) != []
  {}

  /** The key text of a record that verifies under a key is that key's. */
  lemma VerifiedSigner(p: Platform, v: Value, key: Bytes)
    requires Verify(p, v, Some(key))
    ensures Has(v, SIGNATURE) && Field(Field(v, SIGNATURE).value, PUBLIC_KEY) == Some(Str(B64Url(key)))
  {
    hide CanonicalBytes, DecodeExact, B64Url, AgentOk, PrincipalOk, SupersedesOk, ActionOk, FixOk, KindRulesOk, Payload;
    var t := Field(Field(v, SIGNATURE).value, PUBLIC_KEY).value.s;
    DecodeExactIff(t, KEY_SIZE, DecodeExact(t, KEY_SIZE).value);
  }

  /** These bytes are the record's key and signature texts, decoded, and the signature is the key's, of
      the canonical bytes of the record with its signature text emptied. */
  predicate SignedBy(p: Platform, v: Value, raw: Bytes, sig: Bytes) {
    && |raw| == KEY_SIZE && p.keyLoads(raw) && |sig| == SIGNATURE_SIZE
    && Has(v, SIGNATURE) && var meta := Field(v, SIGNATURE).value;
    && meta.Dict? && Field(meta, PUBLIC_KEY) == Some(Str(B64Url(raw))) && Field(meta, SIG) == Some(Str(B64Url(sig)))
    && var data := CanonicalBytes(p.repr, Payload(v)); data.Some? && p.verifies(raw, sig, data.value)
  }

  /** A record verifies exactly when it meets the schema, is canonicalisable, is signed by some key that
      its agent, where it names one, and the caller, where he gives one, agree with. */
  lemma VerifyMeans(p: Platform, v: Value, key: Option<Bytes>)
    ensures Verify(p, v, key) <==>
      && SchemaOk(p, v) && CanonicalBytes(p.repr, v).Some?
      && exists raw: Bytes, sig: Bytes :: SignedBy(p, v, raw, sig) && (key.Some? ==> key.value == raw)
           && (Has(Field(v, AGENT).value, PUBLIC_KEY) ==> Field(Field(v, AGENT).value, PUBLIC_KEY) == Some(Str(B64Url(raw))))
  {
    hide CanonicalBytes, DecodeExact, B64Url, PrincipalOk, SupersedesOk, ActionOk, FixOk, KindRulesOk, Payload;
    if Verify(p, v, key) {
      var meta := Field(v, SIGNATURE).value;
      var t, u := Field(meta, PUBLIC_KEY).value.s, Field(meta, SIG).value.s;
      var raw, sig := DecodeExact(t, KEY_SIZE).value, DecodeExact(u, SIGNATURE_SIZE).value;
      DecodeExactIff(t, KEY_SIZE, raw);
      DecodeExactIff(u, SIGNATURE_SIZE, sig);
      if key.Some? { B64UrlInjective(key.value, raw); }
      assert SignedBy(p, v, raw, sig);
    }
    if SchemaOk(p, v) && CanonicalBytes(p.repr, v).Some? {
      forall raw: Bytes, sig: Bytes | SignedBy(p, v, raw, sig) && (key.Some? ==> key.value == raw)
           && (Has(Field(v, AGENT).value, PUBLIC_KEY) ==> Field(Field(v, AGENT).value, PUBLIC_KEY) == Some(Str(B64Url(raw))))
        ensures Verify(p, v, key)
      {
        DecodeExactIff(B64Url(raw), KEY_SIZE, raw);
        DecodeExactIff(B64Url(sig), SIGNATURE_SIZE, sig);
      }
    }
  }

  // ---------- verification sees only canonical bytes ----------

  /** Values with the same normal form. */
  predicate Similar(v: Value, w: Value) {
    Proper(v) && Proper(w) && Normalise(v).Some? && Normalise(v) == Normalise(w)
  }

  predicate SimilarOpt(a: Option<Value>, b: Option<Value>) {
    if a.None? || b.None? then a.None? && b.None? else Similar(a.value, b.value)
  }

  lemma SimilarDicts(v: Value, w: Value)
    requires Similar(v, w)
    ensures (v.Dict? <==> w.Dict?) && (v.Str? <==> w.Str?) && (v.Str? ==> v == w)
  {
    AlikeShape(v, w);
  }

  lemma SimilarField(v: Value, w: Value, k: Text)
    requires Similar(v, w)
    ensures Has(v, k) == Has(w, k) && (Has(v, k) ==> Similar(Field(v, k).value, Field(w, k).value))
  {
    hide Normalise, Proper, Field;
    FieldsAlike(v, w, k);
  }

  /** A property is judged alike on similar values. */
  lemma SimilarAt(v: Value, w: Value, k: Text)
    requires Similar(v, w)
    ensures SimilarOpt(Field(v, k), Field(w, k)) && Has(v, k) == Has(w, k)
    ensures forall n :: StringProp(Field(v, k), n) == StringProp(Field(w, k), n)
    ensures forall cs :: EnumProp(Field(v, k), cs) == EnumProp(Field(w, k), cs)
    ensures forall c :: IsConst(Field(v, k), c) == IsConst(Field(w, k), c)
    ensures forall n :: PatternProp(Field(v, k), n) == PatternProp(Field(w, k), n)
    ensures Has(v, k) ==> (Field(v, k).value.Dict? <==> Field(w, k).value.Dict?)
    ensures Has(v, k) && Field(v, k).value.Str? ==> Field(v, k) == Field(w, k)
  {
    hide Normalise, Proper, Field;
    FieldsAlike(v, w, k);
    if Has(v, k) { SimilarDicts(Field(v, k).value, Field(w, k).value); }
  }

  lemma SimilarAgent(v: Value, w: Value)
    requires Similar(v, w)
    ensures AgentOk(v) == AgentOk(w) && PrincipalOk(v) == PrincipalOk(w) && ActionOk(v) == ActionOk(w)
  {
    hide Similar, SimilarOpt, StringProp, EnumProp, IsConst, PatternProp, Field;
    SimilarDicts(v, w);
    SimilarAt(v, w, ID);
    SimilarAt(v, w, NAME);
    SimilarAt(v, w, VERSION);
    SimilarAt(v, w, PUBLIC_KEY);
    SimilarAt(v, w, TYPE);
    SimilarAt(v, w, TARGET);
  }

  lemma SimilarSignature(v: Value, w: Value)
    requires Similar(v, w)
    ensures SignatureOk(v) == SignatureOk(w)
  {
    hide Similar, SimilarOpt, StringProp, EnumProp, IsConst, PatternProp, Field;
    SimilarDicts(v, w);
    SimilarAt(v, w, ALG);
    SimilarAt(v, w, KID);
    SimilarAt(v, w, CANONICALIZATION);
    SimilarAt(v, w, SIG);
    SimilarAt(v, w, PUBLIC_KEY);
  }

  lemma SimilarDigest(v: Value, w: Value)
    requires Similar(v, w)
    ensures DigestOk(v) == DigestOk(w) && ContentHashOk(v) == ContentHashOk(w) && SourceOk(v) == SourceOk(w)
  {
    hide Similar, SimilarOpt, StringProp, EnumProp, IsConst, PatternProp, Field;
    SimilarDicts(v, w);
    SimilarAt(v, w, ALG);
    SimilarAt(v, w, DIGEST);
    SimilarAt(v, w, TYPE);
    SimilarAt(v, w, REFERENCE);
  }

  lemma SimilarSupersedes(v: Value, w: Value)
    requires Similar(v, w)
    ensures SupersedesOk(v) == SupersedesOk(w)
  {
    hide Similar, StringProp, EnumProp, IsConst, PatternProp, Field, DigestOk;
    SimilarDicts(v, w);
    SimilarAt(v, w, RECEIPT_ID);
    SimilarAt(v, w, DIGEST);
    if Has(v, DIGEST) { SimilarDigest(Field(v, DIGEST).value, Field(w, DIGEST).value); }
  }

  lemma SimilarFix(v: Value, w: Value)
    requires Similar(v, w)
    ensures FixOk(v) == FixOk(w)
  {
    hide Similar, StringProp, EnumProp, IsConst, PatternProp, Field, ContentHashOk, SourceOk;
    SimilarDicts(v, w);
    SimilarAt(v, w, TYPE);
    SimilarAt(v, w, NOTE);
    SimilarAt(v, w, CONTENT_HASH);
    SimilarAt(v, w, SOURCE);
    if Has(v, CONTENT_HASH) { SimilarDigest(Field(v, CONTENT_HASH).value, Field(w, CONTENT_HASH).value); }
    if Has(v, SOURCE) { SimilarDigest(Field(v, SOURCE).value, Field(w, SOURCE).value); }
  }

  lemma SimilarKindRules(v: Value, w: Value)
    requires Similar(v, w)
    ensures KindRulesOk(v) == KindRulesOk(w)
  {
    hide Similar, SimilarOpt, StringProp, EnumProp, IsConst, PatternProp, Field;
    SimilarAt(v, w, KIND);
    SimilarAt(v, w, SUBJECT);
    SimilarAt(v, w, SUPERSEDES);
    SimilarAt(v, w, FIX);
    SimilarAt(v, w, ACTION);
    SimilarAt(v, w, REASON);
    SimilarAt(v, w, TRIGGER);
  }

  lemma SimilarParties(v: Value, w: Value)
    requires Similar(v, w)
    ensures Has(v, AGENT) == Has(w, AGENT) && Has(v, PRINCIPAL) == Has(w, PRINCIPAL) && Has(v, ACTION) == Has(w, ACTION)
    ensures Has(v, AGENT) ==> AgentOk(Field(v, AGENT).value) == AgentOk(Field(w, AGENT).value)
    ensures Has(v, PRINCIPAL) ==> PrincipalOk(Field(v, PRINCIPAL).value) == PrincipalOk(Field(w, PRINCIPAL).value)
    ensures Has(v, ACTION) ==> ActionOk(Field(v, ACTION).value) == ActionOk(Field(w, ACTION).value)
  {
    hide Similar, Field, AgentOk, PrincipalOk, ActionOk, StringProp, EnumProp, IsConst, PatternProp;
    SimilarAt(v, w, AGENT);
    SimilarAt(v, w, PRINCIPAL);
    SimilarAt(v, w, ACTION);
    if Has(v, AGENT) { SimilarAgent(Field(v, AGENT).value, Field(w, AGENT).value); }
    if Has(v, PRINCIPAL) { SimilarAgent(Field(v, PRINCIPAL).value, Field(w, PRINCIPAL).value); }
    if Has(v, ACTION) { SimilarAgent(Field(v, ACTION).value, Field(w, ACTION).value); }
  }

  lemma SimilarLinks(v: Value, w: Value)
    requires Similar(v, w)
    ensures Has(v, SIGNATURE) == Has(w, SIGNATURE) && Has(v, SUPERSEDES) == Has(w, SUPERSEDES) && Has(v, FIX) == Has(w, FIX)
    ensures Has(v, SIGNATURE) ==> SignatureOk(Field(v, SIGNATURE).value) == SignatureOk(Field(w, SIGNATURE).value)
    ensures Has(v, SUPERSEDES) ==> SupersedesOk(Field(v, SUPERSEDES).value) == SupersedesOk(Field(w, SUPERSEDES).value)
    ensures Has(v, FIX) ==> FixOk(Field(v, FIX).value) == FixOk(Field(w, FIX).value)
  {
    hide Similar, Field, SupersedesOk, FixOk, SignatureOk, StringProp, EnumProp, IsConst, PatternProp;
    SimilarAt(v, w, SIGNATURE);
    SimilarAt(v, w, SUPERSEDES);
    SimilarAt(v, w, FIX);
    if Has(v, SIGNATURE) { SimilarSignature(Field(v, SIGNATURE).value, Field(w, SIGNATURE).value); }
    if Has(v, SUPERSEDES) { SimilarSupersedes(Field(v, SUPERSEDES).value, Field(w, SUPERSEDES).value); }
    if Has(v, FIX) { SimilarFix(Field(v, FIX).value, Field(w, FIX).value); }
  }

  lemma SimilarProperties(p: Platform, v: Value, w: Value)
    requires Similar(v, w)
    ensures PropertiesOk(p, v) == PropertiesOk(p, w)
  {
    hide Similar, SimilarOpt, EnumProp, PatternProp, Field, IsConst;
    hide AgentOk, PrincipalOk, SupersedesOk, ActionOk, FixOk, SignatureOk;
    SimilarParties(v, w);
    SimilarLinks(v, w);
    SimilarAt(v, w, CORRECTION_ID);
    SimilarAt(v, w, REASON);
    SimilarAt(v, w, TRIGGER);
    SimilarAt(v, w, TIMESTAMP);
    SimilarAt(v, w, METADATA);
    SimilarAt(v, w, KIND);
    SimilarAt(v, w, SUBJECT);
    SimilarAt(v, w, NOTE);
  }

  /** The schema cannot tell values with the same normal form apart. */
  lemma SchemaOfNormal(p: Platform, v: Value, w: Value)
    requires Similar(v, w)
    ensures SchemaOk(p, v) == SchemaOk(p, w)
  {
    hide Similar, SimilarOpt, Field, PropertiesOk, KindRulesOk;
    SimilarDicts(v, w);
    SimilarProperties(p, v, w);
    SimilarKindRules(v, w);
    SimilarAt(v, w, CORRECTION_ID);
    SimilarAt(v, w, AGENT);
    SimilarAt(v, w, PRINCIPAL);
    SimilarAt(v, w, TIMESTAMP);
    SimilarAt(v, w, SIGNATURE);
  }
}
