/** Which arguments the constructors accept, exactly: when record, retract and unknown return, and
    when a whole run of them does. */
module Admissible {
  import opened Wrappers
  import opened Text
  import opened Decimal
  import opened Json
  import opened NormalForm
  import opened Fields
  import opened Render
  import opened Base64
  import opened Records
  import opened Chains
  import opened Binding
  import opened Builders
  import opened Constructors
  import opened Runs
  import opened Commitments
  import opened Standalone

  // ---------- conditions on the arguments ----------

  /** Not empty, and free of surrogates. */
  predicate Named(t: Text) { t != [] && SurrogateFree(t) }

  predicate ShownOk(o: Option<Text>) { Given(o) ==> SurrogateFree(o.value) }

  /** Metadata that the number guard and the canonicaliser let through. */
  predicate MetaOk(ms: seq<Member>) { Guarded(Dict(ms)) && Normalise(Dict(ms)).Some? }

  predicate CommonOk(p: Platform, pub: Text, c: Common) {
    && Named(c.Id()) && Named(c.agentId) && Named(c.principalId) && SurrogateFree(c.principalType)
    && Named(c.KeyId(pub)) && SurrogateFree(c.Time()) && p.dateTime(c.Time())
  }

  predicate UnknownOk(p: Platform, pub: Text, c: Common, u: UnknownArgs) {
    CommonOk(p, pub, c) && MetaOk(c.Meta()) && ShownOk(u.agentName) && Named(u.subject) && ShownOk(u.note)
  }

  /** An argument that is omitted or can be hashed: a dictionary that the guard lets through and that has
      canonical bytes, or anything else that str(x).encode() takes. */
  predicate Hashable(p: Platform, x: Value) {
    x.Null? || if x.Dict? then Guarded(x) && CanonicalBytes(p.repr, x).Some? else p.encodeStr(x).Some?
  }

  predicate RecordOk(p: Platform, pub: Text, c: Common, a: ActionArgs) {
    && CommonOk(p, pub, c) && ShownOk(a.agentName) && Named(a.actionType) && ShownOk(a.actionTarget)
    && Hashable(p, a.args) && Hashable(p, a.result) && MetaOk(RecordMeta(p, c, a).value)
  }

  predicate RetractOk(p: Platform, pub: Text, c: Common, r: RetractArgs) {
    && CommonOk(p, pub, c) && MetaOk(c.Meta()) && ChoicesOk(r) && Named(r.reason) && ShownOk(r.fixNote)
    && (r.sourceReference.Some? ==> Named(r.sourceReference.value))
    && Hashable(p, r.corrected)
  }

  // ---------- signing ----------

  /** The schema but for the signature block. */
  predicate BodyOk(p: Platform, d: Value) {
    && d.Dict? && Has(d, CORRECTION_ID) && Has(d, AGENT) && Has(d, PRINCIPAL) && Has(d, TIMESTAMP)
    && PropertiesOk(p, d) && KindRulesOk(d)
  }

  lemma MoreNamesApart()
    ensures SIGNATURE !in [CORRECTION_ID, AGENT, PRINCIPAL, SUPERSEDES, ACTION, REASON, TRIGGER, FIX, TIMESTAMP,
                           METADATA, KIND, SUBJECT, NOTE]
  {
    NameShapes();
  }

  /** Adding the signature block adds its own rule to the schema and changes no other. */
  lemma SchemaSplits(p: Platform, v: Value, d: Value)
    requires v.Dict? && d.Dict? && Has(v, SIGNATURE) && !Has(d, SIGNATURE)
    requires forall k | k != SIGNATURE :: Field(v, k) == Field(d, k)
    ensures SchemaOk(p, v) <==> BodyOk(p, d) && SignatureOk(Field(v, SIGNATURE).value)
  {
    hide Field, StringProp, EnumProp, IsConst, AgentOk, PrincipalOk, SupersedesOk, ActionOk, FixOk, SignatureOk;
    MoreNamesApart();
  }

  lemma EncodedMatches(b: Bytes)
    ensures MatchesUrl(B64Url(b), (4 * |b| + 2) / 3) && |B64Url(b)| == (4 * |b| + 2) / 3 && SurrogateFree(B64Url(b))
  {
    hide B64Url, UrlChar;
    EncodedShape(b);
    forall i | 0 <= i < |B64Url(b)| ensures !IsSurrogate(B64Url(b)[i]) { UrlIsPlain(B64Url(b)[i]); }
  }

  lemma UrlIsPlain(c: CodePoint)
    ensures UrlChar(c) ==> !IsSurrogate(c)
  {}

  lemma SignedMetaFields(pub: Text, kid: Text, sig: Text)
    ensures var m := Dict(Put(SignatureMeta(pub, kid), SIG, Str(sig)));
      && Field(m, ALG) == Some(Str(ED25519)) && Field(m, KID) == Some(Str(kid))
      && Field(m, PUBLIC_KEY) == Some(Str(pub)) && Field(m, CANONICALIZATION) == Some(Str(RFC8785))
      && Field(m, SIG) == Some(Str(sig))
  {
    hide Put, Get;
    var ms := SignatureMeta(pub, kid);
    NameShapes();
    MetaFields(pub, kid, sig);
    KidField(pub, kid, sig);
    GetUnique(ms, ms[0]);
    GetUnique(ms, ms[3]);
    GetPut(ms, SIG, Str(sig), ALG);
    GetPut(ms, SIG, Str(sig), CANONICALIZATION);
  }

  /** The signature block of an honest signer meets the schema exactly when the key identifier is not
      empty. */
  lemma SignatureMeets(p: Platform, seed: Bytes, kid: Text, data: Bytes)
    requires Lawful(p) && |seed| == KEY_SIZE
    ensures SignatureOk(Dict(Put(SignatureMeta(B64Url(p.publicKey(seed)), kid), SIG, Str(B64Url(p.sign(seed, data))))))
      <==> kid != []
  {
    var pub, sig := p.publicKey(seed), p.sign(seed, data);
    assert |pub| == KEY_SIZE && |sig| == SIGNATURE_SIZE;
    hide Put, Get, SignatureMeta, B64Url, Lawful, MatchesUrl;
    SignedMetaFields(B64Url(pub), kid, B64Url(sig));
    EncodedMatches(pub);
    EncodedMatches(sig);
  }

  /** The names of a record's own members. */
  lemma TopNamesPlain()
    ensures SurrogateFree(CORRECTION_ID) && SurrogateFree(AGENT) && SurrogateFree(PRINCIPAL) && SurrogateFree(SUPERSEDES)
    ensures SurrogateFree(ACTION) && SurrogateFree(REASON) && SurrogateFree(TRIGGER) && SurrogateFree(FIX)
    ensures SurrogateFree(TIMESTAMP) && SurrogateFree(METADATA) && SurrogateFree(SIGNATURE)
    ensures SurrogateFree(KIND) && SurrogateFree(SUBJECT) && SurrogateFree(NOTE)
  {
    hide SurrogateFree;
    NameIsPlain("correctionId");
    NameIsPlain("agent");
    NameIsPlain("principal");
    NameIsPlain("supersedes");
    NameIsPlain("action");
    NameIsPlain("reason");
    NameIsPlain("trigger");
    NameIsPlain("fix");
    NameIsPlain("timestamp");
    NameIsPlain("metadata");
    NameIsPlain("signature");
    NameIsPlain("kind");
    NameIsPlain("subject");
    NameIsPlain("note");
  }

  /** The names inside them. */
  lemma InnerNamesPlain()
    ensures SurrogateFree(ID) && SurrogateFree(NAME) && SurrogateFree(TYPE) && SurrogateFree(TARGET) && SurrogateFree(NOTE)
    ensures SurrogateFree(PUBLIC_KEY) && SurrogateFree(RECEIPT_ID) && SurrogateFree(DIGEST) && SurrogateFree(ALG)
    ensures SurrogateFree(CONTENT_HASH) && SurrogateFree(SOURCE) && SurrogateFree(REFERENCE) && SurrogateFree(SHA256)
    ensures SurrogateFree(UNKNOWN) && SurrogateFree(SUPERSEDE) && SurrogateFree(NOOP)
  {
    hide SurrogateFree;
    NameIsPlain("id");
    NameIsPlain("name");
    NameIsPlain("type");
    NameIsPlain("target");
    NameIsPlain("note");
    NameIsPlain("publicKey");
    NameIsPlain("receiptId");
    NameIsPlain("digest");
    NameIsPlain("alg");
    NameIsPlain("contentHash");
    NameIsPlain("source");
    NameIsPlain("reference");
    NameIsPlain("sha256");
    NameIsPlain("unknown");
    NameIsPlain("supersede");
    NameIsPlain("noop");
  }

  /** Members the canonicaliser lets through. */
  predicate Clean(m: Member) { SurrogateFree(m.key) && Normalise(m.value).Some? }

  lemma DictClean(ms: seq<Member>)
    ensures Normalise(Dict(ms)).Some? <==> forall i | 0 <= i < |ms| :: Clean(ms[i])
  {
    hide Normalise, NormaliseMembers, Sort;
    NormaliseDict(ms);
    MembersNormal(ms);
    forall i | 0 <= i < |ms| ensures Clean(ms[i]) <==> NormaliseMember(ms[i]).Some? {}
  }

  lemma StrClean(s: Text)
    ensures Normalise(Str(s)).Some? <==> SurrogateFree(s)
  {}

  lemma MetaClean(pub: Text, kid: Text)
    requires SurrogateFree(pub)
    ensures Normalise(Dict(SignatureMeta(pub, kid))).Some? <==> SurrogateFree(kid)
  {
    hide Normalise, SurrogateFree;
    NameIsPlain("alg");
    NameIsPlain("kid");
    NameIsPlain("publicKey");
    NameIsPlain("canonicalization");
    NameIsPlain("sig");
    NameIsPlain("Ed25519");
    NameIsPlain("RFC8785");
    var ms := SignatureMeta(pub, kid);
    DictClean(ms);
    StrClean(kid);
    StrClean(pub);
    StrClean(ED25519);
    StrClean(RFC8785);
    StrClean([]);
    EmptyPlain();
    assert Clean(ms[1]) <==> SurrogateFree(kid);
    if SurrogateFree(kid) {
      assert forall i | 0 <= i < 5 :: Clean(ms[i]);
    }
  }

  lemma EmptyPlain()
    ensures SurrogateFree([])
  {}

  /** Putting a clean value under a new plain name keeps canonicalisability both ways. */
  lemma PutNew(ms: seq<Member>, k: Text, x: Value)
    requires !HasKey(ms, k) && SurrogateFree(k)
    ensures Normalise(Dict(Put(ms, k, x))).Some? <==> Normalise(Dict(ms)).Some? && Normalise(x).Some?
  {
    hide Normalise, Put, SurrogateFree;
    PutKeeps(ms, k, x);
    var r := ms + [Member(k, x)];
    DictClean(ms);
    DictClean(r);
    assert forall i | 0 <= i < |ms| :: r[i] == ms[i];
    if forall i | 0 <= i < |r| :: Clean(r[i]) {
      assert Clean(r[|ms|]);
      forall i | 0 <= i < |ms| ensures Clean(ms[i]) { assert Clean(r[i]); }
    }
  }

  /** Signing returns exactly when the body passes the guard, the canonicaliser and the schema, and
      the key identifier is a nonempty text without surrogates. */
  lemma SignedIff(p: Platform, seed: Bytes, kid: Text, body: seq<Member>)
    requires Lawful(p) && |seed| == KEY_SIZE && !HasKey(body, SIGNATURE)
    ensures Signed(p, seed, kid, body).Some? <==>
      Guarded(Dict(body)) && Normalise(Dict(body)).Some? && Named(kid) && BodyOk(p, Dict(body))
  {
    var pub := B64Url(p.publicKey(seed));
    EncodedMatches(p.publicKey(seed));
    hide Lawful, Guarded, Normalise, Put, Get, SignatureMeta, B64Url, SchemaOk, BodyOk, SurrogateFree;
    hide MatchesUrl, Unsigned;
    NameIsPlain("signature");
    UnsignedClean(pub, kid, body);
    BytesExist(p.repr, Dict(Unsigned(pub, kid, body)));
    if Guarded(Dict(body)) && Normalise(Dict(Unsigned(pub, kid, body))).Some? {
      var data := CanonicalBytes(p.repr, Dict(Unsigned(pub, kid, body))).value;
      SignedIsValid(p, seed, kid, body, data);
    }
  }

  lemma UnsignedClean(pub: Text, kid: Text, body: seq<Member>)
    requires !HasKey(body, SIGNATURE) && SurrogateFree(pub)
    ensures Normalise(Dict(Unsigned(pub, kid, body))).Some? <==> Normalise(Dict(body)).Some? && SurrogateFree(kid)
  {
    hide Normalise, Put, Get, SignatureMeta, SurrogateFree;
    NameIsPlain("signature");
    MetaClean(pub, kid);
    PutNew(body, SIGNATURE, Dict(SignatureMeta(pub, kid)));
  }

  /** A signed record is valid when its body and its key identifier are. */
  lemma SignedIsValid(p: Platform, seed: Bytes, kid: Text, body: seq<Member>, data: Bytes)
    requires Lawful(p) && |seed| == KEY_SIZE && !HasKey(body, SIGNATURE)
    requires Normalise(Dict(Unsigned(B64Url(p.publicKey(seed)), kid, body))).Some?
    ensures var pub, sig := B64Url(p.publicKey(seed)), Str(B64Url(p.sign(seed, data)));
      var v := Dict(Put(Unsigned(pub, kid, body), SIGNATURE, Dict(Put(SignatureMeta(pub, kid), SIG, sig))));
      ValidRecord(p, v) <==> BodyOk(p, Dict(body)) && kid != []
  {
    hide Lawful, Guarded, Normalise, Put, Get, SignatureMeta, B64Url, SchemaOk, BodyOk, SurrogateFree, MatchesUrl;
    hide SignatureOk, Unsigned, Payload;
    var pub, sig := B64Url(p.publicKey(seed)), B64Url(p.sign(seed, data));
    var v := Dict(Put(Unsigned(pub, kid, body), SIGNATURE, Dict(Put(SignatureMeta(pub, kid), SIG, Str(sig)))));
    PayloadIsUnsigned(pub, kid, body, sig);
    SignatureMeets(p, seed, kid, data);
    SchemaSplits(p, v, Dict(body));
    EncodedMatches(p.sign(seed, data));
    SignedClean(pub, kid, body, sig);
    BytesExist(p.repr, v);
  }

  lemma SignedClean(pub: Text, kid: Text, body: seq<Member>, sig: Text)
    requires Normalise(Dict(Unsigned(pub, kid, body))).Some? && SurrogateFree(sig)
    ensures Normalise(Dict(Put(Unsigned(pub, kid, body), SIGNATURE, Dict(Put(SignatureMeta(pub, kid), SIG, Str(sig)))))).Some?
  {
    hide Normalise, Put, Get, SignatureMeta, SurrogateFree;
    NameIsPlain("signature");
    NameIsPlain("sig");
    StrClean(sig);
    var u := Unsigned(pub, kid, body);
    GetPut(body, SIGNATURE, Dict(SignatureMeta(pub, kid)), SIGNATURE);
    NormalGet(u, SIGNATURE);
    PutNormal(SignatureMeta(pub, kid), SIG, Str(sig));
    PutNormal(u, SIGNATURE, Dict(Put(SignatureMeta(pub, kid), SIG, Str(sig))));
  }

  // ---------- the parts of a body ----------

  lemma StringsGuarded(ms: seq<Member>)
    requires forall i | 0 <= i < |ms| :: ms[i].value.Str?
    ensures Guarded(Dict(ms))
  {}

  lemma AgentMeets(seed: Bytes, p: Platform, c: Common, name: Option<Text>)
    requires Lawful(p) && |seed| == KEY_SIZE
    ensures var a := AgentOf(B64Url(p.publicKey(seed)), c, name);
      && (AgentOk(a) <==> c.agentId != []) && Guarded(a)
      && (Normalise(a).Some? <==> SurrogateFree(c.agentId) && ShownOk(name))
  {
    var pub := B64Url(p.publicKey(seed));
    EncodedMatches(p.publicKey(seed));
    assert |p.publicKey(seed)| == KEY_SIZE && MatchesUrl(pub, 43);
    hide Lawful, Normalise, Get, B64Url, SurrogateFree, MatchesUrl, Guarded;
    AgentFields(pub, c, name);
    AgentVersion(pub, c, name);
    var ms := AgentOf(pub, c, name).members;
    StringsGuarded(ms);
    DictClean(ms);
    AgentClean(pub, c, name);
  }

  lemma AgentVersion(pub: Text, c: Common, name: Option<Text>)
    ensures Field(AgentOf(pub, c, name), VERSION) == None
  {
    hide Get;
    NameShapes();
    assert |VERSION| == 7;
    Absent(AgentOf(pub, c, name).members, VERSION);
  }

  lemma AgentClean(pub: Text, c: Common, name: Option<Text>)
    requires SurrogateFree(pub)
    ensures var ms := AgentOf(pub, c, name).members;
      (forall i | 0 <= i < |ms| :: Clean(ms[i])) <==> SurrogateFree(c.agentId) && ShownOk(name)
  {
    hide Normalise, SurrogateFree;
    InnerNamesPlain();
    StrClean(c.agentId);
    StrClean(pub);
    var ms := AgentOf(pub, c, name).members;
    assert Clean(ms[0]) <==> SurrogateFree(c.agentId);
    assert Clean(ms[1]);
    if Given(name) {
      StrClean(name.value);
      assert Clean(ms[2]) <==> SurrogateFree(name.value);
    }
  }

  /** A two-member dictionary of strings. */
  lemma PairMeets(a: Text, x: Text, b: Text, y: Text)
    requires SurrogateFree(a) && SurrogateFree(b)
    ensures Guarded(Party(a, x, b, y))
    ensures Normalise(Party(a, x, b, y)).Some? <==> SurrogateFree(x) && SurrogateFree(y)
  {
    hide Normalise, SurrogateFree;
    var ms := Party(a, x, b, y).members;
    StringsGuarded(ms);
    DictClean(ms);
    StrClean(x);
    StrClean(y);
    assert (Clean(ms[0]) <==> SurrogateFree(x)) && (Clean(ms[1]) <==> SurrogateFree(y));
  }

  lemma PrincipalMeets(x: Text, y: Text)
    ensures var q := Party(ID, x, TYPE, y);
      && (PrincipalOk(q) <==> x != []) && Guarded(q)
      && (Normalise(q).Some? <==> SurrogateFree(x) && SurrogateFree(y))
  {
    hide Normalise, Get, SurrogateFree, Guarded, Party;
    InnerNamesPlain();
    PrincipalFields(x, y);
    PairMeets(ID, x, TYPE, y);
    PartyDict(x, y);
  }

  lemma PartyDict(x: Text, y: Text)
    ensures Party(ID, x, TYPE, y).Dict?
  {}

  lemma ActionMeets(a: ActionArgs)
    ensures var d := Dict(ActionOf(a));
      && (ActionOk(d) <==> a.actionType != []) && Guarded(d)
      && (Normalise(d).Some? <==> SurrogateFree(a.actionType) && ShownOk(a.actionTarget))
  {
    hide Normalise, Get, SurrogateFree, Guarded;
    InnerNamesPlain();
    ActionFields(a);
    var ms := ActionOf(a);
    StringsGuarded(ms);
    DictClean(ms);
    StrClean(a.actionType);
    assert Clean(ms[0]) <==> SurrogateFree(a.actionType);
    if Given(a.actionTarget) {
      StrClean(a.actionTarget.value);
      assert Clean(ms[1]) <==> SurrogateFree(a.actionTarget.value);
    }
  }

  // ---------- record ----------

  lemma RecordAll(c: Common, agent: Value, action: Value, meta: seq<Member>)
    ensures var d := Dict(RecordShape(c, agent, action, meta));
      && Field(d, CORRECTION_ID) == Some(Str(c.Id())) && Field(d, AGENT) == Some(agent)
      && Field(d, PRINCIPAL) == Some(Party(ID, c.principalId, TYPE, c.principalType)) && Field(d, ACTION) == Some(action)
      && Field(d, REASON) == Some(Str([])) && Field(d, TRIGGER) == Some(Str(SUPERSEDE))
      && Field(d, FIX) == Some(Dict([Member(TYPE, Str(NOOP))])) && Field(d, TIMESTAMP) == Some(Str(c.Time()))
      && Field(d, METADATA) == Some(Dict(meta))
      && Field(d, SUPERSEDES) == None && Field(d, KIND) == None && Field(d, SUBJECT) == None && Field(d, NOTE) == None
      && Field(d, SIGNATURE) == None
  {
    hide Get, Party, UniqueKeys;
    RecordKeys(c, agent, action, meta);
    RecordLookup(c, agent, action, meta);
    var ms := RecordShape(c, agent, action, meta);
    GetUnique(ms, ms[4]);
    GetUnique(ms, ms[5]);
    GetUnique(ms, ms[6]);
    NameShapes();
    Absent(ms, SUPERSEDES);
    Absent(ms, KIND);
    Absent(ms, SUBJECT);
    Absent(ms, NOTE);
    Absent(ms, SIGNATURE);
  }

  lemma NoopMeets()
    ensures var f := Dict([Member(TYPE, Str(NOOP))]); FixOk(f) && Guarded(f) && Normalise(f).Some?
  {
    NameShapes();
    hide Normalise, Get, SurrogateFree, Guarded;
    InnerNamesPlain();
    var ms := [Member(TYPE, Str(NOOP))];
    StringsGuarded(ms);
    DictClean(ms);
    StrClean(NOOP);
    GetUnique(ms, ms[0]);
    Absent(ms, NOTE);
    Absent(ms, CONTENT_HASH);
    Absent(ms, SOURCE);
    assert NOOP in FIX_TYPES by { assert FIX_TYPES[3] == NOOP; }
  }

  lemma RecordSchema(p: Platform, c: Common, agent: Value, action: Value, meta: seq<Member>)
    ensures BodyOk(p, Dict(RecordShape(c, agent, action, meta))) <==>
      c.Id() != [] && AgentOk(agent) && c.principalId != [] && ActionOk(action) && p.dateTime(c.Time())
  {
    hide Get, Party, RecordShape, AgentOk, PrincipalOk, ActionOk, FixOk, Field, Guarded, Normalise;
    RecordAll(c, agent, action, meta);
    PrincipalMeets(c.principalId, c.principalType);
    NoopMeets();
    assert SUPERSEDE in TRIGGERS by { assert TRIGGERS[0] == SUPERSEDE; }
  }

  lemma RecordClean(c: Common, agent: Value, action: Value, meta: seq<Member>)
    ensures Normalise(Dict(RecordShape(c, agent, action, meta))).Some? <==>
      && SurrogateFree(c.Id()) && Normalise(agent).Some? && SurrogateFree(c.principalId) && SurrogateFree(c.principalType)
      && Normalise(action).Some? && SurrogateFree(c.Time()) && Normalise(Dict(meta)).Some?
  {
    hide Normalise, SurrogateFree, Party, Guarded, FixOk, PrincipalOk;
    TopNamesPlain();
    InnerNamesPlain();
    PrincipalMeets(c.principalId, c.principalType);
    NoopMeets();
    StrClean(c.Id());
    StrClean(c.Time());
    StrClean([]);
    EmptyPlain();
    StrClean(SUPERSEDE);
    DictClean(RecordShape(c, agent, action, meta));
    RecordShapeClean(c, agent, action, meta);
  }

  lemma RecordShapeClean(c: Common, agent: Value, action: Value, meta: seq<Member>)
    ensures var ms := RecordShape(c, agent, action, meta);
      (forall i | 0 <= i < |ms| :: Clean(ms[i])) <==>
      && Clean(ms[0]) && Clean(ms[1]) && Clean(ms[2]) && Clean(ms[3]) && Clean(ms[4])
      && Clean(ms[5]) && Clean(ms[6]) && Clean(ms[7]) && Clean(ms[8])
  {
    hide Clean;
  }

  lemma RecordGuarded(c: Common, agent: Value, action: Value, meta: seq<Member>)
    requires Guarded(agent) && Guarded(action)
    ensures Guarded(Dict(RecordShape(c, agent, action, meta))) <==> Guarded(Dict(meta))
  {
    NoopGuarded();
    PartyGuarded(c.principalId, c.principalType);
    var ms := RecordShape(c, agent, action, meta);
    assert ms[8].value == Dict(meta);
  }

  lemma NoopGuarded()
    ensures Guarded(Dict([Member(TYPE, Str(NOOP))]))
  {}

  lemma PartyGuarded(x: Text, y: Text)
    ensures Guarded(Party(ID, x, TYPE, y))
  {}

  lemma HashableMeans(p: Platform, x: Value)
    ensures Hashable(p, x) <==> GuardedDict(x) && (x.Null? || ContentBytes(p, x).Some?)
  {
    hide Guarded, CanonicalBytes;
  }

  /** record returns exactly on these arguments. */
  lemma RecordReturns(p: Platform, seed: Bytes, c: Common, a: ActionArgs)
    requires Lawful(p) && |seed| == KEY_SIZE
    ensures RecordOf(p, seed, c, a).Some? <==> RecordOk(p, B64Url(p.publicKey(seed)), c, a)
  {
    hide Lawful, Signed, B64Url, RecordShape, AgentOf, AgentOk, ActionOk, Normalise, Guarded, BodyOk, SurrogateFree;
    hide GuardedDict, Get, Put, ContentBytes, Hash, Hashable;
    HashableMeans(p, a.args);
    HashableMeans(p, a.result);
    var pub := B64Url(p.publicKey(seed));
    if RecordMeta(p, c, a).Some? {
      var agent, action, meta := AgentOf(pub, c, a.agentName), Dict(ActionOf(a)), RecordMeta(p, c, a).value;
      RecordAll(c, agent, action, meta);
      SignedIff(p, seed, c.KeyId(pub), RecordShape(c, agent, action, meta));
      AgentMeets(seed, p, c, a.agentName);
      ActionMeets(a);
      RecordSchema(p, c, agent, action, meta);
      RecordClean(c, agent, action, meta);
      RecordGuarded(c, agent, action, meta);
    }
  }

  // ---------- unknown ----------

  lemma UnknownAll(c: Common, u: UnknownArgs, agent: Value)
    ensures var d := Dict(UnknownShape(c, u, agent));
      && Field(d, CORRECTION_ID) == Some(Str(c.Id())) && Field(d, AGENT) == Some(agent)
      && Field(d, PRINCIPAL) == Some(Party(ID, c.principalId, TYPE, c.principalType)) && Field(d, KIND) == Some(Str(UNKNOWN))
      && Field(d, SUBJECT) == Some(Str(u.subject)) && Field(d, NOTE) == Some(Str(NoteOf(u)))
      && Field(d, TIMESTAMP) == Some(Str(c.Time())) && Field(d, METADATA) == Some(Dict(c.Meta()))
      && Field(d, SUPERSEDES) == None && Field(d, ACTION) == None && Field(d, REASON) == None
      && Field(d, TRIGGER) == None && Field(d, FIX) == None && Field(d, SIGNATURE) == None
  {
    hide Get, Party, UniqueKeys;
    UnknownLookup(c, u, agent);
    var ms := UnknownShape(c, u, agent);
    NameShapes();
    Absent(ms, SUPERSEDES);
    Absent(ms, ACTION);
    Absent(ms, REASON);
    Absent(ms, TRIGGER);
    Absent(ms, FIX);
    Absent(ms, SIGNATURE);
  }

  function NoteOf(u: UnknownArgs): Text { if u.note.Some? then u.note.value else [] }

  lemma KindsApart()
    ensures UNKNOWN != ACTION && UNKNOWN != CORRECTION && ACTION != CORRECTION
  {
    assert |UNKNOWN| == 7 && |ACTION| == 6 && |CORRECTION| == 10;
  }

  lemma UnknownSchema(p: Platform, c: Common, u: UnknownArgs, agent: Value)
    ensures BodyOk(p, Dict(UnknownShape(c, u, agent))) <==>
      c.Id() != [] && AgentOk(agent) && c.principalId != [] && u.subject != [] && p.dateTime(c.Time())
  {
    hide Get, Party, UnknownShape, AgentOk, PrincipalOk, ActionOk, FixOk, Field, Guarded, Normalise;
    UnknownAll(c, u, agent);
    PrincipalMeets(c.principalId, c.principalType);
    KindsApart();
  }

  lemma UnknownClean(c: Common, u: UnknownArgs, agent: Value)
    ensures Normalise(Dict(UnknownShape(c, u, agent))).Some? <==>
      && SurrogateFree(c.Id()) && Normalise(agent).Some? && SurrogateFree(c.principalId) && SurrogateFree(c.principalType)
      && SurrogateFree(u.subject) && SurrogateFree(NoteOf(u)) && SurrogateFree(c.Time()) && Normalise(Dict(c.Meta())).Some?
  {
    hide Normalise, SurrogateFree, Party, Guarded, PrincipalOk;
    TopNamesPlain();
    InnerNamesPlain();
    PrincipalMeets(c.principalId, c.principalType);
    StrClean(c.Id());
    StrClean(c.Time());
    StrClean(u.subject);
    StrClean(NoteOf(u));
    StrClean(UNKNOWN);
    DictClean(UnknownShape(c, u, agent));
    UnknownShapeClean(c, u, agent);
  }

  lemma UnknownShapeClean(c: Common, u: UnknownArgs, agent: Value)
    ensures var ms := UnknownShape(c, u, agent);
      (forall i | 0 <= i < |ms| :: Clean(ms[i])) <==>
      && Clean(ms[0]) && Clean(ms[1]) && Clean(ms[2]) && Clean(ms[3]) && Clean(ms[4])
      && Clean(ms[5]) && Clean(ms[6]) && Clean(ms[7])
  {
    hide Clean;
  }

  lemma UnknownGuarded(c: Common, u: UnknownArgs, agent: Value)
    requires Guarded(agent)
    ensures Guarded(Dict(UnknownShape(c, u, agent))) <==> Guarded(Dict(c.Meta()))
  {
    PartyGuarded(c.principalId, c.principalType);
    var ms := UnknownShape(c, u, agent);
    assert ms[7].value == Dict(c.Meta());
  }

  lemma NotePlain(u: UnknownArgs)
    ensures SurrogateFree(NoteOf(u)) <==> ShownOk(u.note)
  {}

  /** unknown returns exactly on these arguments. */
  lemma UnknownReturns(p: Platform, seed: Bytes, c: Common, u: UnknownArgs)
    requires Lawful(p) && |seed| == KEY_SIZE
    ensures UnknownOf(p, seed, c, u).Some? <==> UnknownOk(p, B64Url(p.publicKey(seed)), c, u)
  {
    NotePlain(u);
    hide Lawful, Signed, B64Url, UnknownShape, AgentOf, AgentOk, Normalise, Guarded, BodyOk, SurrogateFree, Get, NoteOf, ShownOk;
    var pub := B64Url(p.publicKey(seed));
    var agent := AgentOf(pub, c, u.agentName);
    UnknownAll(c, u, agent);
    SignedIff(p, seed, c.KeyId(pub), UnknownShape(c, u, agent));
    AgentMeets(seed, p, c, u.agentName);
    UnknownSchema(p, c, u, agent);
    UnknownClean(c, u, agent);
    UnknownGuarded(c, u, agent);
  }

  // ---------- retract ----------

  lemma RetractAll(pub: Text, c: Common, r: RetractArgs, pointer: Value, action: Value, fix: seq<Member>)
    ensures var d := Dict(RetractShape(pub, c, r, pointer, action, fix));
      && Field(d, CORRECTION_ID) == Some(Str(c.Id())) && Field(d, AGENT) == Some(AgentOf(pub, c, None))
      && Field(d, PRINCIPAL) == Some(Party(ID, c.principalId, TYPE, c.principalType)) && Field(d, SUPERSEDES) == Some(pointer)
      && Field(d, ACTION) == Some(Dict([Member(TYPE, action)])) && Field(d, REASON) == Some(Str(r.reason))
      && Field(d, TRIGGER) == Some(Str(r.trigger)) && Field(d, FIX) == Some(Dict(fix))
      && Field(d, TIMESTAMP) == Some(Str(c.Time())) && Field(d, METADATA) == Some(Dict(c.Meta()))
      && Field(d, KIND) == None && Field(d, SUBJECT) == None && Field(d, NOTE) == None && Field(d, SIGNATURE) == None
  {
    hide Get, Party, UniqueKeys, AgentOf;
    RetractLookup(pub, c, r, pointer, action, fix);
    RetractKeys(pub, c, r, pointer, action, fix);
    var ms := RetractShape(pub, c, r, pointer, action, fix);
    GetUnique(ms, ms[4]);
    NameShapes();
    Absent(ms, KIND);
    Absent(ms, SUBJECT);
    Absent(ms, NOTE);
    Absent(ms, SIGNATURE);
  }

  lemma HashMeets(p: Platform, data: Bytes)
    requires Lawful(p)
    ensures var h := Hash(p, data); DigestOk(h) && ContentHashOk(h) && Guarded(h) && Normalise(h).Some?
  {
    EncodedMatches(p.sha256(data));
    assert |p.sha256(data)| == DIGEST_SIZE;
    hide Lawful, Normalise, Get, B64Url, SurrogateFree, MatchesUrl, Guarded;
    var ms := Hash(p, data).members;
    NameShapes();
    GetUnique(ms, ms[0]);
    GetUnique(ms, ms[1]);
    StringsGuarded(ms);
    InnerNamesPlain();
    StrClean(SHA256);
    StrClean(B64Url(p.sha256(data)));
    DictClean(ms);
    assert Clean(ms[0]) && Clean(ms[1]);
  }

  lemma PointerMeets(p: Platform, prior: Value, data: Bytes)
    requires Lawful(p) && PriorId(prior).Str?
    ensures var s := Pointer(p, prior, data);
      && (SupersedesOk(s) <==> PriorId(prior).s != []) && Guarded(s)
      && (Normalise(s).Some? <==> SurrogateFree(PriorId(prior).s))
  {
    HashMeets(p, data);
    hide Lawful, Normalise, Get, SurrogateFree, PriorId, Hash, DigestOk, ContentHashOk, Truthy;
    var ms := Pointer(p, prior, data).members;
    NameShapes();
    GetUnique(ms, ms[0]);
    GetUnique(ms, ms[1]);
    InnerNamesPlain();
    StrClean(PriorId(prior).s);
    DictClean(ms);
    assert (Clean(ms[0]) <==> SurrogateFree(PriorId(prior).s)) && Clean(ms[1]);
  }

  lemma SourceMeets(r: RetractArgs)
    requires ChoicesOk(r) && r.sourceType.Some?
    ensures var s := Party(TYPE, r.sourceType.value, REFERENCE, r.sourceReference.value);
      && (SourceOk(s) <==> r.sourceReference.value != []) && Guarded(s)
      && (Normalise(s).Some? <==> SurrogateFree(r.sourceReference.value))
  {
    ChoicePlain(r);
    hide Normalise, Get, SurrogateFree, Guarded;
    InnerNamesPlain();
    SourceFields(r.sourceType.value, r.sourceReference.value);
    PairMeets(TYPE, r.sourceType.value, REFERENCE, r.sourceReference.value);
  }

  /** The choices are plain texts. */
  lemma ChoicePlain(r: RetractArgs)
    requires ChoicesOk(r)
    ensures SurrogateFree(r.trigger) && SurrogateFree(r.fixType)
    ensures r.sourceType.Some? ==> SurrogateFree(r.sourceType.value)
  {
    hide SurrogateFree;
    NameIsPlain("supersede");
    NameIsPlain("check_failed");
    NameIsPlain("human_flagged");
    NameIsPlain("self_correction");
    NameIsPlain("replace");
    NameIsPlain("delete");
    NameIsPlain("rollback");
    NameIsPlain("noop");
    NameIsPlain("other");
    NameIsPlain("schema");
    NameIsPlain("document");
    NameIsPlain("database");
    NameIsPlain("api");
    NameIsPlain("human");
  }

  lemma CleanConcat(a: seq<Member>, b: seq<Member>)
    ensures Normalise(Dict(a + b)).Some? <==> Normalise(Dict(a)).Some? && Normalise(Dict(b)).Some?
  {
    hide Normalise, SurrogateFree;
    DictClean(a);
    DictClean(b);
    DictClean(a + b);
    hide Clean;
    if forall i | 0 <= i < |a + b| :: Clean((a + b)[i]) {
      forall i | 0 <= i < |a| ensures Clean(a[i]) { assert Clean((a + b)[i]); }
      forall i | 0 <= i < |b| ensures Clean(b[i]) { assert Clean((a + b)[|a| + i]); }
    }
  }

  lemma GuardedConcat(a: seq<Member>, b: seq<Member>)
    requires Guarded(Dict(a)) && Guarded(Dict(b))
    ensures Guarded(Dict(a + b))
  {}

  lemma OneClean(k: Text, v: Value)
    requires SurrogateFree(k)
    ensures Normalise(Dict([Member(k, v)])).Some? <==> Normalise(v).Some?
    ensures Guarded(Dict([Member(k, v)])) <==> Guarded(v)
  {
    hide Normalise, SurrogateFree;
    var ms := [Member(k, v)];
    DictClean(ms);
    assert Clean(ms[0]) <==> Normalise(v).Some?;
    assert ms[0].value == v;
  }

  lemma NothingClean()
    ensures Normalise(Dict([])).Some? && Guarded(Dict([]))
  {}

  lemma OptionalClean(k: Text, o: Option<Text>)
    requires SurrogateFree(k)
    ensures Normalise(Dict(Optional(k, o))).Some? <==> ShownOk(o)
    ensures Guarded(Dict(Optional(k, o)))
  {
    NothingClean();
    hide Normalise, SurrogateFree;
    if Given(o) {
      OneClean(k, Str(o.value));
      StrClean(o.value);
    }
  }

  lemma SourceClean(r: RetractArgs)
    requires ChoicesOk(r)
    ensures Guarded(Dict(SourceOf(r)))
    ensures Normalise(Dict(SourceOf(r))).Some? <==> (r.sourceReference.Some? ==> SurrogateFree(r.sourceReference.value))
  {
    NothingClean();
    hide Normalise, SurrogateFree, Guarded, Party;
    NameIsPlain("source");
    if r.sourceType.Some? {
      SourceMeets(r);
      OneClean(SOURCE, Party(TYPE, r.sourceType.value, REFERENCE, r.sourceReference.value));
    }
  }

  /** Type and note of a fix. */
  lemma TypeNoteClean(r: RetractArgs)
    requires ChoicesOk(r)
    ensures var ms := [Member(TYPE, Str(r.fixType))] + Optional(NOTE, r.fixNote);
      Guarded(Dict(ms)) && (Normalise(Dict(ms)).Some? <==> ShownOk(r.fixNote))
  {
    ChoicePlain(r);
    hide Normalise, SurrogateFree, Guarded, ShownOk, ChoicesOk, Optional;
    InnerNamesPlain();
    var t := [Member(TYPE, Str(r.fixType))];
    OneClean(TYPE, Str(r.fixType));
    StrClean(r.fixType);
    StringsGuarded(t);
    OptionalClean(NOTE, r.fixNote);
    CleanConcat(t, Optional(NOTE, r.fixNote));
    GuardedConcat(t, Optional(NOTE, r.fixNote));
  }

  /** The fix before its source: type, note and content hash. */
  lemma FixStartClean(p: Platform, r: RetractArgs, ms: seq<Member>)
    requires Lawful(p) && ChoicesOk(r)
    requires WithHash(p, [Member(TYPE, Str(r.fixType))] + Optional(NOTE, r.fixNote), CONTENT_HASH, r.corrected) == Some(ms)
    ensures Guarded(Dict(ms)) && (Normalise(Dict(ms)).Some? <==> ShownOk(r.fixNote))
  {
    hide Lawful, Normalise, SurrogateFree, Guarded, ContentBytes, Hash, Put, ShownOk, ChoicesOk, DigestOk, ContentHashOk;
    TypeNoteClean(r);
    if !r.corrected.Null? {
      var start := [Member(TYPE, Str(r.fixType))] + Optional(NOTE, r.fixNote);
      var h := Hash(p, ContentBytes(p, r.corrected).value);
      OptionalNames();
      HashMeets(p, ContentBytes(p, r.corrected).value);
      Append(start, CONTENT_HASH, h);
      InnerNamesPlain();
      OneClean(CONTENT_HASH, h);
      CleanConcat(start, [Member(CONTENT_HASH, h)]);
      GuardedConcat(start, [Member(CONTENT_HASH, h)]);
    }
  }

  lemma FixMeets(p: Platform, r: RetractArgs)
    requires Lawful(p) && ChoicesOk(r) && FixOf(p, r).Some?
    ensures var f := Dict(FixOf(p, r).value);
      && (FixOk(f) <==> (r.sourceReference.Some? ==> r.sourceReference.value != [])) && Guarded(f)
      && (Normalise(f).Some? <==> ShownOk(r.fixNote) && (r.sourceReference.Some? ==> SurrogateFree(r.sourceReference.value)))
  {
    FixParts(p, r);
    hide Lawful, Normalise, SurrogateFree, Guarded, ContentBytes, Hash, Put, ShownOk, FixOf, FixOk, WithHash, SourceOf;
    var start := WithHash(p, [Member(TYPE, Str(r.fixType))] + Optional(NOTE, r.fixNote), CONTENT_HASH, r.corrected).value;
    FixStartClean(p, r, start);
    SourceClean(r);
    CleanConcat(start, SourceOf(r));
    GuardedConcat(start, SourceOf(r));
    FixSchema(p, r);
  }

  lemma FixParts(p: Platform, r: RetractArgs)
    requires FixOf(p, r).Some?
    ensures var s := WithHash(p, [Member(TYPE, Str(r.fixType))] + Optional(NOTE, r.fixNote), CONTENT_HASH, r.corrected);
      s.Some? && FixOf(p, r).value == s.value + SourceOf(r)
  {}

  lemma FixSchema(p: Platform, r: RetractArgs)
    requires Lawful(p) && ChoicesOk(r) && FixOf(p, r).Some?
    ensures FixOk(Dict(FixOf(p, r).value)) <==> (r.sourceReference.Some? ==> r.sourceReference.value != [])
  {
    hide Lawful, Get, Field, FixOf, ContentBytes, Hash, ContentHashOk, SourceOk, Party, Normalise, Guarded, DigestOk;
    FixFields(p, r);
    if !r.corrected.Null? { HashMeets(p, ContentBytes(p, r.corrected).value); }
    if r.sourceType.Some? { SourceMeets(r); }
  }

  lemma RetractSchema(p: Platform, pub: Text, c: Common, r: RetractArgs, pointer: Value, action: Value, fix: seq<Member>)
    requires ChoicesOk(r)
    ensures BodyOk(p, Dict(RetractShape(pub, c, r, pointer, action, fix))) <==>
      && c.Id() != [] && AgentOk(AgentOf(pub, c, None)) && c.principalId != [] && SupersedesOk(pointer)
      && action.Str? && action.s != [] && r.reason != [] && FixOk(Dict(fix)) && p.dateTime(c.Time())
  {
    OneAction(action);
    hide Get, Party, RetractShape, AgentOf, AgentOk, PrincipalOk, SupersedesOk, ActionOk, FixOk, Field, Guarded, Normalise;
    RetractAll(pub, c, r, pointer, action, fix);
    PrincipalMeets(c.principalId, c.principalType);
  }

  lemma OneAction(action: Value)
    ensures ActionOk(Dict([Member(TYPE, action)])) <==> action.Str? && action.s != []
  {
    hide Get;
    NameShapes();
    var ms := [Member(TYPE, action)];
    GetUnique(ms, ms[0]);
    Absent(ms, TARGET);
  }

  lemma RetractClean(pub: Text, c: Common, r: RetractArgs, pointer: Value, action: Value, fix: seq<Member>)
    requires ChoicesOk(r)
    ensures Normalise(Dict(RetractShape(pub, c, r, pointer, action, fix))).Some? <==>
      && SurrogateFree(c.Id()) && Normalise(AgentOf(pub, c, None)).Some? && SurrogateFree(c.principalId)
      && SurrogateFree(c.principalType) && Normalise(pointer).Some? && Normalise(action).Some? && SurrogateFree(r.reason)
      && Normalise(Dict(fix)).Some? && SurrogateFree(c.Time()) && Normalise(Dict(c.Meta())).Some?
  {
    ChoicePlain(r);
    hide Normalise, SurrogateFree, Party, Guarded, PrincipalOk, AgentOf, ChoicesOk;
    TopNamesPlain();
    InnerNamesPlain();
    PrincipalMeets(c.principalId, c.principalType);
    StrClean(c.Id());
    StrClean(c.Time());
    StrClean(r.reason);
    StrClean(r.trigger);
    OneClean(TYPE, action);
    DictClean(RetractShape(pub, c, r, pointer, action, fix));
    RetractShapeClean(pub, c, r, pointer, action, fix);
  }

  lemma RetractShapeClean(pub: Text, c: Common, r: RetractArgs, pointer: Value, action: Value, fix: seq<Member>)
    ensures var ms := RetractShape(pub, c, r, pointer, action, fix);
      (forall i | 0 <= i < |ms| :: Clean(ms[i])) <==>
      && Clean(ms[0]) && Clean(ms[1]) && Clean(ms[2]) && Clean(ms[3]) && Clean(ms[4])
      && Clean(ms[5]) && Clean(ms[6]) && Clean(ms[7]) && Clean(ms[8]) && Clean(ms[9])
  {
    hide Clean;
  }

  lemma RetractGuarded(pub: Text, c: Common, r: RetractArgs, pointer: Value, action: Value, fix: seq<Member>)
    requires Guarded(AgentOf(pub, c, None)) && Guarded(pointer) && Guarded(action) && Guarded(Dict(fix))
    ensures Guarded(Dict(RetractShape(pub, c, r, pointer, action, fix))) <==> Guarded(Dict(c.Meta()))
  {
    PartyGuarded(c.principalId, c.principalType);
    OneGuarded(action);
    var ms := RetractShape(pub, c, r, pointer, action, fix);
    assert ms[9].value == Dict(c.Meta());
  }

  lemma OneGuarded(action: Value)
    requires Guarded(action)
    ensures Guarded(Dict([Member(TYPE, action)]))
  {}

  /** A verified prior record names itself and its action by nonempty plain texts. */
  lemma PriorMeets(p: Platform, prior: Value, key: Option<Bytes>)
    requires Verify(p, prior, key)
    ensures prior.Dict? && CanonicalBytes(p.repr, prior).Some?
    ensures PriorId(prior).Str? && Named(PriorId(prior).s)
    ensures PriorAction(prior).Some? && PriorAction(prior).value.Str? && Named(PriorAction(prior).value.s)
  {
    VerifiedFacts(p, prior, key);
    VerifiedId(p, prior, key);
    VerifiedAction(p, prior);
    hide Verify, Normalise, Get, SurrogateFree, IdOf, CanonicalBytes;
    NormalGet(prior.members, CORRECTION_ID);
    StrClean(IdOf(prior));
    InnerNamesPlain();
    assert |UNKNOWN| == 7;
    if Has(prior, ACTION) {
      NormalGet(prior.members, ACTION);
      var action := Field(prior, ACTION).value;
      NormalGet(action.members, TYPE);
      StrClean(Field(action, TYPE).value.s);
    }
  }

  lemma VerifiedAction(p: Platform, v: Value)
    requires SchemaOk(p, v)
    ensures Has(v, ACTION) ==>
      var a := Field(v, ACTION).value; a.Dict? && Has(a, TYPE) && Field(a, TYPE).value.Str? && Field(a, TYPE).value.s != []
  {
    hide Get, AgentOk, PrincipalOk, SupersedesOk, FixOk, SignatureOk, KindRulesOk;
  }

  /** The dictionary of retract is signed exactly when its arguments are as asked. */
  lemma RetractSigns(p: Platform, seed: Bytes, c: Common, r: RetractArgs, prior: Value, data: Bytes, action: Text)
    requires Lawful(p) && |seed| == KEY_SIZE && ChoicesOk(r) && FixOf(p, r).Some?
    requires PriorId(prior).Str? && Named(PriorId(prior).s) && Named(action)
    ensures var pub := B64Url(p.publicKey(seed));
      Signed(p, seed, c.KeyId(pub), RetractShape(pub, c, r, Pointer(p, prior, data), Str(action), FixOf(p, r).value)).Some?
      <==>
      && CommonOk(p, pub, c) && MetaOk(c.Meta()) && Named(r.reason) && ShownOk(r.fixNote)
      && (r.sourceReference.Some? ==> Named(r.sourceReference.value))
  {
    hide Lawful, Signed, B64Url, RetractShape, AgentOf, AgentOk, FixOk, SupersedesOk, Normalise, Guarded, BodyOk, SurrogateFree;
    hide ChoicesOk, FixOf, Pointer, PriorId, ShownOk, Get;
    var pub, fix := B64Url(p.publicKey(seed)), FixOf(p, r).value;
    var pointer := Pointer(p, prior, data);
    RetractAll(pub, c, r, pointer, Str(action), fix);
    SignedIff(p, seed, c.KeyId(pub), RetractShape(pub, c, r, pointer, Str(action), fix));
    AgentMeets(seed, p, c, None);
    NoName();
    PointerMeets(p, prior, data);
    StrClean(action);
    StrGuarded(action);
    FixMeets(p, r);
    RetractSchema(p, pub, c, r, pointer, Str(action), fix);
    RetractClean(pub, c, r, pointer, Str(action), fix);
    RetractGuarded(pub, c, r, pointer, Str(action), fix);
  }

  /** retract on a verified record returns exactly on these arguments, whatever that record is. */
  lemma RetractReturns(p: Platform, seed: Bytes, prior: Value, key: Option<Bytes>, c: Common, r: RetractArgs)
    requires Lawful(p) && |seed| == KEY_SIZE && Verify(p, prior, key)
    ensures RetractOf(p, seed, prior, c, r).Some? <==> RetractOk(p, B64Url(p.publicKey(seed)), c, r)
  {
    hide Verify, Lawful, Signed, B64Url, RetractShape, ChoicesOk, FixOf, Pointer, PriorId, PriorAction, CanonicalBytes;
    hide ContentBytes, GuardedDict, ShownOk, CommonOk, MetaOk, Named, Hashable;
    HashableMeans(p, r.corrected);
    PriorMeets(p, prior, key);
    FixSucceeds(p, r);
    if ChoicesOk(r) && FixOf(p, r).Some? {
      RetractSigns(p, seed, c, r, prior, CanonicalBytes(p.repr, prior).value, PriorAction(prior).value.s);
    }
  }

  lemma NoName()
    ensures ShownOk(None)
  {}

  lemma StrGuarded(s: Text)
    ensures Guarded(Str(s))
  {}

  lemma FixSucceeds(p: Platform, r: RetractArgs)
    ensures FixOf(p, r).Some? <==> GuardedDict(r.corrected) && (r.corrected.Null? || ContentBytes(p, r.corrected).Some?)
  {}

  // ---------- whole runs ----------

  predicate OpeningOk(p: Platform, pub: Text, o: Opening) {
    match o
    case Acted(c, a) => RecordOk(p, pub, c, a)
    case Unsure(c, u) => UnknownOk(p, pub, c, u)
  }

  predicate StepsOk(p: Platform, pub: Text, steps: seq<Amendment>) {
    forall i | 0 <= i < |steps| :: RetractOk(p, pub, steps[i].c, steps[i].r)
  }

  /** A run returns exactly when each of its calls was given acceptable arguments; no call fails
      because of the record it amends. */
  lemma {:induction false} RunReturns(p: Platform, seed: Bytes, o: Opening, steps: seq<Amendment>)
    requires Lawful(p) && |seed| == KEY_SIZE && ArgumentsProper(o, steps)
    ensures Run(p, seed, o, steps).Some? <==>
      OpeningOk(p, B64Url(p.publicKey(seed)), o) && StepsOk(p, B64Url(p.publicKey(seed)), steps)
  {
    hide Lawful, RecordOf, UnknownOf, RetractOf, RecordOk, UnknownOk, RetractOk, CommonProper, B64Url;
    if steps == [] {
      match o
      case Acted(c, a) => RecordReturns(p, seed, c, a);
      case Unsure(c, u) => UnknownReturns(p, seed, c, u);
    } else {
      var n := |steps| - 1;
      FewerArguments(o, steps);
      RunReturns(p, seed, o, steps[..n]);
      assert steps == steps[..n] + [steps[n]];
      if Run(p, seed, o, steps[..n]).Some? { LastReturns(p, seed, o, steps); }
    }
  }

  lemma FewerArguments(o: Opening, steps: seq<Amendment>)
    requires steps != [] && ArgumentsProper(o, steps)
    ensures ArgumentsProper(o, steps[..|steps| - 1])
  {
    hide CommonProper;
    var n := |steps| - 1;
    forall i | 0 <= i <= n ensures CommonProper(CommonAt(o, steps[..n], i)) {
      assert CommonAt(o, steps[..n], i) == CommonAt(o, steps, i);
    }
  }

  lemma LastReturns(p: Platform, seed: Bytes, o: Opening, steps: seq<Amendment>)
    requires Lawful(p) && |seed| == KEY_SIZE && steps != [] && ArgumentsProper(o, steps[..|steps| - 1])
    requires Run(p, seed, o, steps[..|steps| - 1]).Some?
    ensures Run(p, seed, o, steps).Some? <==>
      RetractOk(p, B64Url(p.publicKey(seed)), steps[|steps| - 1].c, steps[|steps| - 1].r)
  {
    hide Lawful, RetractOf, RetractOk, ArgumentsProper, B64Url, Verify, AllProper, Linked;
    var n := |steps| - 1;
    var rs := Run(p, seed, o, steps[..n]).value;
    RunGrown(p, seed, o, steps[..n], rs);
    NoKeyFits(p, seed);
    assert Verify(p, rs[n], None);
    RetractReturns(p, seed, rs[n], None, steps[n].c, steps[n].r);
  }

  // ---------- runs of every length ----------

  /** Arguments that ask for nothing special. */
  function SomeCommon(id: Text, time: Text): Common {
    Common(AGENT, UNKNOWN, UNKNOWN, None, None, None, Some(time), id, time)
  }

  function SomeAmendment(i: nat, time: Text): Amendment {
    Amendment(SomeCommon(Digits(i + 1), time), RetractArgs(REASON, SUPERSEDE, NOOP, None, Null, None, None))
  }

  lemma DigitsNamed(i: nat)
    ensures Named(Digits(i))
  {
    hide Digits;
    assert forall k | 0 <= k < |Digits(i)| :: IsDigit(Digits(i)[k]);
  }

  lemma SomeCommonOk(p: Platform, seed: Bytes, i: nat, time: Text)
    requires Lawful(p) && |seed| == KEY_SIZE && p.dateTime(time) && SurrogateFree(time)
    ensures var c := SomeCommon(Digits(i), time);
      CommonOk(p, B64Url(p.publicKey(seed)), c) && MetaOk(c.Meta()) && CommonProper(c) && c.Id() == Digits(i)
  {
    assert |p.publicKey(seed)| == KEY_SIZE;
    hide Lawful, B64Url, Digits, Normalise, Guarded, MatchesUrl, SurrogateFree;
    EncodedMatches(p.publicKey(seed));
    NothingClean();
    assert |AGENT| == 5 && |UNKNOWN| == 7;
    NameIsPlain("agent");
    NameIsPlain("unknown");
    DigitsNamed(i);
  }

  lemma SomeAmendmentOk(p: Platform, seed: Bytes, i: nat, time: Text)
    requires Lawful(p) && |seed| == KEY_SIZE && p.dateTime(time) && SurrogateFree(time)
    ensures var s := SomeAmendment(i, time); RetractOk(p, B64Url(p.publicKey(seed)), s.c, s.r)
  {
    hide Lawful, B64Url, Digits, Normalise, Guarded, SurrogateFree, CommonOk, MetaOk;
    SomeCommonOk(p, seed, i + 1, time);
    NameIsPlain("reason");
    assert |REASON| == 6;
    assert TRIGGERS[0] == SUPERSEDE && FIX_TYPES[3] == NOOP;
  }

  /** Runs that return, with fresh identifiers, exist for every key and every length. */
  lemma RunsExist(p: Platform, seed: Bytes, time: Text, n: nat) returns (o: Opening, steps: seq<Amendment>, rs: seq<Value>)
    requires Lawful(p) && |seed| == KEY_SIZE && p.dateTime(time) && SurrogateFree(time)
    ensures |steps| == n && ArgumentsProper(o, steps) && FreshIds(o, steps) && Run(p, seed, o, steps) == Some(rs)
  {
    hide Lawful, B64Url, Digits, RetractOk, CommonOk, CommonProper, MetaOk, Run, SurrogateFree;
    o := Unsure(SomeCommon(Digits(0), time), UnknownArgs(None, SUBJECT, None));
    steps := seq(n, i requires 0 <= i < n => SomeAmendment(i, time));
    forall i | 0 <= i <= n
      ensures CommonProper(CommonAt(o, steps, i)) && CommonAt(o, steps, i).Id() == Digits(i)
    {
      SomeCommonOk(p, seed, i, time);
    }
    forall i, j | 0 <= i < j <= n ensures CommonAt(o, steps, i).Id() != CommonAt(o, steps, j).Id() {
      NumberOfDigits(i);
      NumberOfDigits(j);
    }
    forall i | 0 <= i < n ensures RetractOk(p, B64Url(p.publicKey(seed)), steps[i].c, steps[i].r) {
      SomeAmendmentOk(p, seed, i, time);
    }
    SomeCommonOk(p, seed, 0, time);
    NameIsPlain("subject");
    assert |SUBJECT| == 7;
    RunReturns(p, seed, o, steps);
    rs := Run(p, seed, o, steps).value;
  }
}
