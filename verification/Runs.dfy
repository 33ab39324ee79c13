/** Whole runs of the constructors: what they build is a chain that verifies, here and after travel. */
module Runs {
  import opened Wrappers
  import opened Text
  import opened Numbers
  import opened Json
  import opened JsonParser
  import opened JsonWriter
  import opened NormalForm
  import opened Fields
  import opened Render
  import opened Base64
  import opened Records
  import opened Chains
  import opened Binding
  import opened Builders
  import opened Constructors

  // ---------- what is signed verifies ----------

  /** The key a record may be checked against: none given, or the signer's own. */
  predicate KeyFits(p: Platform, seed: Bytes, key: Option<Bytes>) { key.Some? ==> key.value == p.publicKey(seed) }

  predicate NamesSigner(p: Platform, seed: Bytes, body: seq<Member>) {
    && Get(body, AGENT).Some?
    && Field(Get(body, AGENT).value, PUBLIC_KEY) == Some(Str(B64Url(p.publicKey(seed))))
  }

  lemma MetaFields(pub: Text, kid: Text, sig: Text)
    ensures var m := Dict(Put(SignatureMeta(pub, kid), SIG, Str(sig)));
      && Field(m, PUBLIC_KEY) == Some(Str(pub)) && Field(m, SIG) == Some(Str(sig))
      && Put(m.members, SIG, Str([])) == SignatureMeta(pub, kid)
      && UniqueKeys(m.members)
  {
    hide Put, Get;
    var ms := SignatureMeta(pub, kid);
    NameShapes();
    GetUnique(ms, ms[2]);
    GetUnique(ms, ms[4]);
    GetPut(ms, SIG, Str(sig), PUBLIC_KEY);
    GetPut(ms, SIG, Str(sig), SIG);
    PutPut(ms, SIG, Str(sig), Str([]));
    PutKeeps(ms, SIG, Str(sig));
  }

  /** Blanking the signature text of a signed record gives back what was signed. */
  lemma PayloadIsUnsigned(pub: Text, kid: Text, body: seq<Member>, sig: Text)
    ensures var v := Dict(Put(Unsigned(pub, kid, body), SIGNATURE, Dict(Put(SignatureMeta(pub, kid), SIG, Str(sig)))));
      && Field(v, SIGNATURE) == Some(Dict(Put(SignatureMeta(pub, kid), SIG, Str(sig))))
      && Payload(v) == Dict(Unsigned(pub, kid, body))
      && forall k | k != SIGNATURE :: Field(v, k) == Get(body, k)
  {
    hide Put, Get, SignatureMeta;
    var m := Dict(Put(SignatureMeta(pub, kid), SIG, Str(sig)));
    var u := Unsigned(pub, kid, body);
    MetaFields(pub, kid, sig);
    GetPut(u, SIGNATURE, m, SIGNATURE);
    PutPut(u, SIGNATURE, m, Dict(SignatureMeta(pub, kid)));
    PutPut(body, SIGNATURE, Dict(SignatureMeta(pub, kid)), Dict(SignatureMeta(pub, kid)));
    forall k | k != SIGNATURE ensures Get(Put(u, SIGNATURE, m), k) == Get(body, k) {
      GetPut(u, SIGNATURE, m, k);
      GetPut(body, SIGNATURE, Dict(SignatureMeta(pub, kid)), k);
    }
  }

  lemma KeyReadsBack(p: Platform, seed: Bytes, data: Bytes)
    requires Lawful(p) && |seed| == KEY_SIZE
    ensures var pub := p.publicKey(seed);
      && LoadPublicKey(p, B64Url(pub)) == Some(pub)
      && DecodeExact(B64Url(p.sign(seed, data)), SIGNATURE_SIZE) == Some(p.sign(seed, data))
      && p.verifies(pub, p.sign(seed, data), data)
  {
    hide ReprLaw, DecodeExact, B64Url;
    DecodeExactIff(B64Url(p.publicKey(seed)), KEY_SIZE, p.publicKey(seed));
    DecodeExactIff(B64Url(p.sign(seed, data)), SIGNATURE_SIZE, p.sign(seed, data));
  }

  /** A signed record verifies without a key and under the signer's key, and under no other. */
  lemma SignedVerifies(p: Platform, seed: Bytes, kid: Text, body: seq<Member>, v: Value, key: Option<Bytes>)
    requires Lawful(p) && |seed| == KEY_SIZE && NamesSigner(p, seed, body)
    requires Signed(p, seed, kid, body) == Some(v)
    ensures Verify(p, v, key) <==> KeyFits(p, seed, key)
    ensures v.Dict? && Field(v, SIGNATURE).Some? && forall k | k != SIGNATURE :: Field(v, k) == Get(body, k)
  {
    hide Put, Get, SignatureMeta, CanonicalBytes, ValidRecord, Payload, Lawful, Unsigned, Guarded, DecodeExact, B64Url;
    hide LoadPublicKey;
    var pub := B64Url(p.publicKey(seed));
    var data := CanonicalBytes(p.repr, Dict(Unsigned(pub, kid, body))).value;
    var sig := B64Url(p.sign(seed, data));
    PayloadIsUnsigned(pub, kid, body, sig);
    MetaFields(pub, kid, sig);
    KeyReadsBack(p, seed, data);
    AgentIsNotSignature();
    if key.Some? && B64Url(key.value) == pub {
      B64UrlInjective(key.value, p.publicKey(seed));
    }
  }

  lemma AgentIsNotSignature()
    ensures SIGNATURE !in [AGENT, CORRECTION_ID, SUPERSEDES]
  {
    NameShapes();
  }

  lemma SignedProper(p: Platform, seed: Bytes, kid: Text, body: seq<Member>, v: Value)
    requires Proper(Dict(body)) && Signed(p, seed, kid, body) == Some(v)
    ensures Proper(v)
  {
    hide Put, ValidRecord, CanonicalBytes, Proper, SignatureMeta;
    var pub := B64Url(p.publicKey(seed));
    var meta := SignatureMeta(pub, kid);
    MetaProper(pub, kid);
    StrProper();
    PutProper(body, SIGNATURE, Dict(meta));
    var data := CanonicalBytes(p.repr, Dict(Unsigned(pub, kid, body))).value;
    var m := Put(meta, SIG, Str(B64Url(p.sign(seed, data))));
    PutProper(meta, SIG, Str(B64Url(p.sign(seed, data))));
    PutProper(Unsigned(pub, kid, body), SIGNATURE, Dict(m));
  }

  lemma MetaProper(pub: Text, kid: Text)
    ensures Proper(Dict(SignatureMeta(pub, kid)))
  {
    NameShapes();
  }

  lemma StrProper()
    ensures forall s :: Proper(Str(s))
  {}

  // ---------- the three bodies ----------

  predicate CommonProper(c: Common) { Proper(Dict(c.Meta())) }

  lemma HashProper(p: Platform, data: Bytes)
    ensures Proper(Hash(p, data))
  {
    NameShapes();
  }

  lemma WithHashProper(p: Platform, ms: seq<Member>, k: Text, v: Value)
    requires Proper(Dict(ms)) && WithHash(p, ms, k, v).Some?
    ensures Proper(Dict(WithHash(p, ms, k, v).value))
  {
    hide Put, Proper, ContentBytes, Hash;
    if !v.Null? {
      HashProper(p, ContentBytes(p, v).value);
      PutProper(ms, k, Hash(p, ContentBytes(p, v).value));
    }
  }

  lemma PartsProper(pub: Text, c: Common, name: Option<Text>)
    ensures Proper(AgentOf(pub, c, name)) && Proper(Party(ID, c.principalId, TYPE, c.principalType))
    ensures Field(AgentOf(pub, c, name), PUBLIC_KEY) == Some(Str(pub))
  {
    NameShapes();
    var ms := AgentOf(pub, c, name).members;
    GetUnique(ms, ms[1]);
  }

  lemma ActionProper(a: ActionArgs)
    ensures Proper(Dict(ActionOf(a)))
  {
    NameShapes();
  }

  lemma ProperDict(ms: seq<Member>)
    requires UniqueKeys(ms) && forall i | 0 <= i < |ms| :: Proper(ms[i].value)
    ensures Proper(Dict(ms))
  {}

  lemma Absent(ms: seq<Member>, k: Text)
    requires forall i | 0 <= i < |ms| :: ms[i].key != k
    ensures Get(ms, k) == None
  {}

  lemma NoopProper()
    ensures Proper(Dict([Member(TYPE, Str(NOOP))]))
  {}

  lemma RecordShapeProper(c: Common, agent: Value, action: Value, meta: seq<Member>)
    requires Proper(agent) && Proper(action) && Proper(Dict(meta))
    requires Proper(Party(ID, c.principalId, TYPE, c.principalType))
    ensures Proper(Dict(RecordShape(c, agent, action, meta)))
  {
    hide Party, Proper, UniqueKeys;
    RecordKeys(c, agent, action, meta);
    StrProper();
    NoopProper();
    ProperDict(RecordShape(c, agent, action, meta));
  }

  /** What a chain reads of a body. */
  predicate ChainFields(ms: seq<Member>, id: Text, agent: Value, pointer: Option<Value>) {
    Get(ms, CORRECTION_ID) == Some(Str(id)) && Get(ms, AGENT) == Some(agent) && Get(ms, SUPERSEDES) == pointer
  }

  lemma RecordShapeFields(c: Common, agent: Value, action: Value, meta: seq<Member>)
    ensures ChainFields(RecordShape(c, agent, action, meta), c.Id(), agent, None)
  {
    hide Party, Get, UniqueKeys;
    RecordKeys(c, agent, action, meta);
    var ms := RecordShape(c, agent, action, meta);
    GetUnique(ms, ms[0]);
    GetUnique(ms, ms[1]);
    NameShapes();
    Absent(ms, SUPERSEDES);
  }

  lemma UnknownShapeProper(c: Common, u: UnknownArgs, agent: Value)
    requires Proper(agent) && Proper(Dict(c.Meta())) && Proper(Party(ID, c.principalId, TYPE, c.principalType))
    ensures Proper(Dict(UnknownShape(c, u, agent)))
  {
    hide Party, Proper, UniqueKeys;
    UnknownKeys(c, u, agent);
    StrProper();
    ProperDict(UnknownShape(c, u, agent));
  }

  lemma UnknownShapeFields(c: Common, u: UnknownArgs, agent: Value)
    ensures ChainFields(UnknownShape(c, u, agent), c.Id(), agent, None)
  {
    hide Party, Get, UniqueKeys;
    UnknownKeys(c, u, agent);
    var ms := UnknownShape(c, u, agent);
    GetUnique(ms, ms[0]);
    GetUnique(ms, ms[1]);
    NameShapes();
    Absent(ms, SUPERSEDES);
  }

  lemma RetractShapeProper(pub: Text, c: Common, r: RetractArgs, pointer: Value, action: Value, fix: seq<Member>)
    requires Proper(pointer) && Proper(action) && Proper(Dict(fix)) && Proper(Dict(c.Meta()))
    ensures Proper(Dict(RetractShape(pub, c, r, pointer, action, fix)))
  {
    hide Party, AgentOf, Proper, UniqueKeys;
    PartsProper(pub, c, None);
    RetractKeys(pub, c, r, pointer, action, fix);
    StrProper();
    OneProper(TYPE, action);
    ProperDict(RetractShape(pub, c, r, pointer, action, fix));
  }

  lemma OneProper(k: Text, v: Value)
    requires Proper(v)
    ensures Proper(Dict([Member(k, v)]))
  {}

  lemma RetractShapeFields(pub: Text, c: Common, r: RetractArgs, pointer: Value, action: Value, fix: seq<Member>)
    ensures ChainFields(RetractShape(pub, c, r, pointer, action, fix), c.Id(), AgentOf(pub, c, None), Some(pointer))
  {
    hide Party, AgentOf, Get, UniqueKeys;
    RetractKeys(pub, c, r, pointer, action, fix);
    var ms := RetractShape(pub, c, r, pointer, action, fix);
    GetUnique(ms, ms[0]);
    GetUnique(ms, ms[1]);
    GetUnique(ms, ms[3]);
  }

  // ---------- the three constructors ----------

  /** A record named id, of this signer, that is Proper and points as given. */
  ghost predicate BuiltAs(p: Platform, seed: Bytes, v: Value, id: Text, pointer: Option<Value>) {
    && Proper(v) && v.Dict? && Field(v, CORRECTION_ID) == Some(Str(id)) && Field(v, SUPERSEDES) == pointer
    && forall key :: Verify(p, v, key) <==> KeyFits(p, seed, key)
  }

  lemma SignedBuilt(p: Platform, seed: Bytes, kid: Text, body: seq<Member>, v: Value, id: Text, agent: Value, pointer: Option<Value>)
    requires Lawful(p) && |seed| == KEY_SIZE && Proper(Dict(body)) && ChainFields(body, id, agent, pointer)
    requires Field(agent, PUBLIC_KEY) == Some(Str(B64Url(p.publicKey(seed))))
    requires Signed(p, seed, kid, body) == Some(v)
    ensures BuiltAs(p, seed, v, id, pointer)
  {
    hide Lawful, Proper, Get, Signed, Verify;
    SignedProper(p, seed, kid, body, v);
    forall key ensures Verify(p, v, key) <==> KeyFits(p, seed, key) {
      SignedVerifies(p, seed, kid, body, v, key);
    }
    SignedVerifies(p, seed, kid, body, v, None);
    AgentIsNotSignature();
  }

  lemma RecordBuilt(p: Platform, seed: Bytes, c: Common, a: ActionArgs, v: Value)
    requires Lawful(p) && |seed| == KEY_SIZE && CommonProper(c) && RecordOf(p, seed, c, a) == Some(v)
    ensures BuiltAs(p, seed, v, c.Id(), None)
  {
    hide Lawful, Proper, Signed, BuiltAs, ChainFields, RecordShape, GuardedDict, WithHash, AgentOf, Party;
    var pub := B64Url(p.publicKey(seed));
    var agent, action := AgentOf(pub, c, a.agentName), Dict(ActionOf(a));
    var m1 := WithHash(p, c.Meta(), INPUT_HASH, a.args).value;
    var m2 := WithHash(p, m1, OUTPUT_HASH, a.result).value;
    WithHashProper(p, c.Meta(), INPUT_HASH, a.args);
    WithHashProper(p, m1, OUTPUT_HASH, a.result);
    PartsProper(pub, c, a.agentName);
    ActionProper(a);
    RecordShapeProper(c, agent, action, m2);
    RecordShapeFields(c, agent, action, m2);
    SignedBuilt(p, seed, c.KeyId(pub), RecordShape(c, agent, action, m2), v, c.Id(), agent, None);
  }

  lemma UnknownBuilt(p: Platform, seed: Bytes, c: Common, u: UnknownArgs, v: Value)
    requires Lawful(p) && |seed| == KEY_SIZE && CommonProper(c) && UnknownOf(p, seed, c, u) == Some(v)
    ensures BuiltAs(p, seed, v, c.Id(), None)
  {
    hide Lawful, Proper, Signed, BuiltAs, ChainFields, UnknownShape, AgentOf, Party;
    var pub := B64Url(p.publicKey(seed));
    var agent := AgentOf(pub, c, u.agentName);
    PartsProper(pub, c, u.agentName);
    UnknownShapeProper(c, u, agent);
    UnknownShapeFields(c, u, agent);
    SignedBuilt(p, seed, c.KeyId(pub), UnknownShape(c, u, agent), v, c.Id(), agent, None);
  }

  lemma RetractBuilt(p: Platform, seed: Bytes, prior: Value, c: Common, r: RetractArgs, v: Value)
    requires Lawful(p) && |seed| == KEY_SIZE && CommonProper(c) && Proper(prior)
    requires RetractOf(p, seed, prior, c, r) == Some(v)
    ensures CanonicalBytes(p.repr, prior).Some?
    ensures BuiltAs(p, seed, v, c.Id(), Some(Pointer(p, prior, CanonicalBytes(p.repr, prior).value)))
  {
    hide Lawful, Proper, Signed, BuiltAs, ChainFields, RetractShape, ChoicesOk, AgentOf, Party;
    hide PriorAction, FixOf, Pointer, CanonicalBytes;
    var pub := B64Url(p.publicKey(seed));
    var data := CanonicalBytes(p.repr, prior).value;
    var action, fix := PriorAction(prior).value, FixOf(p, r).value;
    PartsProper(pub, c, None);
    PriorProper(p, prior, data);
    FixProper(p, r);
    RetractShapeProper(pub, c, r, Pointer(p, prior, data), action, fix);
    RetractShapeFields(pub, c, r, Pointer(p, prior, data), action, fix);
    SignedBuilt(p, seed, c.KeyId(pub), RetractShape(pub, c, r, Pointer(p, prior, data), action, fix), v, c.Id(),
                AgentOf(pub, c, None), Some(Pointer(p, prior, data)));
  }

  lemma PriorProper(p: Platform, prior: Value, data: Bytes)
    requires Proper(prior)
    ensures Proper(Pointer(p, prior, data))
    ensures PriorAction(prior).Some? ==> Proper(PriorAction(prior).value)
  {
    hide Proper, Hash, Truthy, Field;
    StrProper();
    NullProper();
    HashProper(p, data);
    if Field(prior, CORRECTION_ID).Some? { FieldProper(prior, CORRECTION_ID); }
    if Field(prior, RECEIPT_ID).Some? { FieldProper(prior, RECEIPT_ID); }
    PairProper(RECEIPT_ID, PriorId(prior), DIGEST, Hash(p, data));
    if Has(prior, ACTION) {
      FieldProper(prior, ACTION);
      if Has(Field(prior, ACTION).value, TYPE) { FieldProper(Field(prior, ACTION).value, TYPE); }
    }
  }

  lemma NullProper()
    ensures Proper(Null)
  {}

  lemma PairProper(a: Text, x: Value, b: Text, y: Value)
    requires Proper(x) && Proper(y) && a == RECEIPT_ID && b == DIGEST
    ensures Proper(Dict([Member(a, x), Member(b, y)]))
  {
    NameShapes();
  }

  lemma FixProper(p: Platform, r: RetractArgs)
    requires FixOf(p, r).Some?
    ensures Proper(Dict(FixOf(p, r).value))
  {
    hide Proper, ContentBytes, Hash, GuardedDict, Party;
    var data := ContentBytes(p, r.corrected);
    if data.Some? { HashProper(p, data.value); }
    StrProper();
    SourceProper(r);
    var ms := [Member(TYPE, Str(r.fixType))] + Optional(NOTE, r.fixNote);
    OptionalNames();
    if !r.corrected.Null? { Append(ms, CONTENT_HASH, Hash(p, data.value)); }
    ProperDict(FixOf(p, r).value);
  }

  lemma SourceProper(r: RetractArgs)
    ensures SourceOf(r) != [] ==> Proper(SourceOf(r)[0].value)
  {
    NameShapes();
  }

  // ---------- runs ----------

  datatype Opening = Acted(c: Common, a: ActionArgs) | Unsure(c: Common, u: UnknownArgs)
  datatype Amendment = Amendment(c: Common, r: RetractArgs)

  function Open(p: Platform, seed: Bytes, o: Opening): Option<Value> {
    match o
    case Acted(c, a) => RecordOf(p, seed, c, a)
    case Unsure(c, u) => UnknownOf(p, seed, c, u)
  }

  /** record or unknown, then retract again and again on the last record; None if a call raises. */
  function Run(p: Platform, seed: Bytes, o: Opening, steps: seq<Amendment>): Option<seq<Value>> {
    if steps == [] then
      var v :- Open(p, seed, o);
      Some([v])
    else
      var n := |steps| - 1;
      var rs :- Run(p, seed, o, steps[..n]);
      if rs == [] then None
      else
        var v :- RetractOf(p, seed, rs[|rs| - 1], steps[n].c, steps[n].r);
        Some(rs + [v])
  }

  /** The arguments of the call that makes record i. */
  function CommonAt(o: Opening, steps: seq<Amendment>, i: nat): Common
    requires i <= |steps|
  {
    if i == 0 then o.c else steps[i - 1].c
  }

  predicate ArgumentsProper(o: Opening, steps: seq<Amendment>) {
    forall i | 0 <= i <= |steps| :: CommonProper(CommonAt(o, steps, i))
  }

  /** Every call was given, or drew, its own identifier. */
  predicate FreshIds(o: Opening, steps: seq<Amendment>) {
    forall i, j | 0 <= i < j <= |steps| :: CommonAt(o, steps, i).Id() != CommonAt(o, steps, j).Id()
  }

  lemma PointerFields(p: Platform, prior: Value, data: Bytes)
    ensures Field(Pointer(p, prior, data), RECEIPT_ID) == Some(PriorId(prior))
    ensures EqualsHash(Field(Pointer(p, prior, data), DIGEST), B64Url(p.sha256(data)))
  {
    hide PriorId, Get, B64Url;
    NameShapes();
    var ms := Pointer(p, prior, data).members;
    GetUnique(ms, ms[0]);
    GetUnique(ms, ms[1]);
    var h := Hash(p, data).members;
    GetUnique(h, h[0]);
    GetUnique(h, h[1]);
  }

  /** retract links its record to a verified prior record. */
  lemma RetractLinks(p: Platform, seed: Bytes, prior: Value, v: Value, id: Text, key: Option<Bytes>)
    requires Verify(p, prior, key) && CanonicalBytes(p.repr, prior).Some?
    requires BuiltAs(p, seed, v, id, Some(Pointer(p, prior, CanonicalBytes(p.repr, prior).value)))
    ensures LinkOk(p, prior, v)
  {
    hide Verify, CanonicalBytes, Proper, Field, Pointer, EqualsHash, IdOf, KeyFits, B64Url;
    PointerFields(p, prior, CanonicalBytes(p.repr, prior).value);
    VerifiedId(p, prior, key);
  }

  /** What is known of a run's records while it grows. */
  ghost predicate Grown(p: Platform, seed: Bytes, o: Opening, steps: seq<Amendment>, rs: seq<Value>) {
    && |rs| == |steps| + 1 && AllProper(rs) && Linked(p, rs)
    && forall i | 0 <= i < |rs| ::
      && IdOf(rs[i]) == CommonAt(o, steps, i).Id()
      && forall key :: Verify(p, rs[i], key) <==> KeyFits(p, seed, key)
  }

  lemma OpenGrown(p: Platform, seed: Bytes, o: Opening, v: Value)
    requires Lawful(p) && |seed| == KEY_SIZE && CommonProper(o.c) && Open(p, seed, o) == Some(v)
    ensures Grown(p, seed, o, [], [v])
  {
    hide Verify, Lawful, Proper, RecordOf, UnknownOf, Field, CommonProper;
    match o
    case Acted(c, a) => RecordBuilt(p, seed, c, a, v);
    case Unsure(c, u) => UnknownBuilt(p, seed, c, u, v);
  }

  lemma {:induction false} RunGrown(p: Platform, seed: Bytes, o: Opening, steps: seq<Amendment>, rs: seq<Value>)
    requires Lawful(p) && |seed| == KEY_SIZE && ArgumentsProper(o, steps) && Run(p, seed, o, steps) == Some(rs)
    ensures Grown(p, seed, o, steps, rs)
  {
    hide Lawful, RetractOf, Open, CommonProper, Grown;
    assert CommonProper(CommonAt(o, steps, 0));
    if steps == [] {
      OpenGrown(p, seed, o, rs[0]);
      assert rs == [rs[0]];
    } else {
      var n := |steps| - 1;
      var ws := Run(p, seed, o, steps[..n]).value;
      forall i | 0 <= i <= n ensures CommonProper(CommonAt(o, steps[..n], i)) {
        assert CommonAt(o, steps[..n], i) == CommonAt(o, steps, i);
      }
      RunGrown(p, seed, o, steps[..n], ws);
      assert CommonProper(CommonAt(o, steps, n + 1));
      GrowOne(p, seed, o, steps, ws, rs[|rs| - 1]);
    }
  }

  lemma GrowOne(p: Platform, seed: Bytes, o: Opening, steps: seq<Amendment>, ws: seq<Value>, v: Value)
    requires Lawful(p) && |seed| == KEY_SIZE && steps != []
    requires Grown(p, seed, o, steps[..|steps| - 1], ws) && ws != []
    requires CommonProper(steps[|steps| - 1].c)
    requires RetractOf(p, seed, ws[|ws| - 1], steps[|steps| - 1].c, steps[|steps| - 1].r) == Some(v)
    ensures Grown(p, seed, o, steps, ws + [v])
  {
    hide Lawful, RetractOf, Verify, Proper, LinkOk, Field, CanonicalBytes, CommonProper, KeyFits, Pointer;
    var n := |steps| - 1;
    var c, prior := steps[n].c, ws[n];
    RetractBuilt(p, seed, prior, c, steps[n].r, v);
    NoKeyFits(p, seed);
    assert Verify(p, prior, None);
    RetractLinks(p, seed, prior, v, c.Id(), None);
    var rs := ws + [v];
    forall i | 0 <= i < |rs| ensures IdOf(rs[i]) == CommonAt(o, steps, i).Id() {
      if i <= n { assert CommonAt(o, steps[..n], i) == CommonAt(o, steps, i); }
    }
  }

  lemma NoKeyFits(p: Platform, seed: Bytes)
    ensures KeyFits(p, seed, None) && KeyFits(p, seed, Some(p.publicKey(seed)))
  {}

  /** A run's records are accepted as a chain exactly when their identifiers are fresh and the key
      is absent or the signer's; and then the chain is accepted with its own checkpoint. */
  lemma RunAccepted(p: Platform, seed: Bytes, o: Opening, steps: seq<Amendment>, rs: seq<Value>, key: Option<Bytes>)
    requires Lawful(p) && |seed| == KEY_SIZE && ArgumentsProper(o, steps) && Run(p, seed, o, steps) == Some(rs)
    ensures ChainOk(p, rs, key) <==> FreshIds(o, steps) && KeyFits(p, seed, key)
    ensures FreshIds(o, steps) ==>
      Checkpoint(p, rs).Some? && Accepted(p, List(rs), Some(p.publicKey(seed)), Checkpoint(p, rs))
  {
    hide Lawful, Run, ArgumentsProper, CheckpointOk, Checkpoint, KeyFits;
    RunGrown(p, seed, o, steps, rs);
    GrownChain(p, seed, o, steps, rs, key);
    if FreshIds(o, steps) {
      NoKeyFits(p, seed);
      GrownChain(p, seed, o, steps, rs, None);
      GrownChain(p, seed, o, steps, rs, Some(p.publicKey(seed)));
      OwnCheckpoint(p, rs, p.publicKey(seed));
    }
  }

  lemma GrownChain(p: Platform, seed: Bytes, o: Opening, steps: seq<Amendment>, rs: seq<Value>, key: Option<Bytes>)
    requires Grown(p, seed, o, steps, rs)
    ensures ChainOk(p, rs, key) <==> FreshIds(o, steps) && KeyFits(p, seed, key)
  {
    hide Verify, IdOf, Linked, AllProper, KeyFits;
    if ChainOk(p, rs, key) {
      assert Verify(p, rs[0], key);
      forall i, j | 0 <= i < j <= |steps| ensures CommonAt(o, steps, i).Id() != CommonAt(o, steps, j).Id() {
        assert IdOf(rs[i]) != IdOf(rs[j]);
      }
    }
    if FreshIds(o, steps) {
      forall i, j | 0 <= i < j < |rs| ensures IdOf(rs[i]) != IdOf(rs[j]) {
        assert CommonAt(o, steps, i).Id() != CommonAt(o, steps, j).Id();
      }
    }
  }

  /** An accepted chain meets the checkpoint made from it, under any key it is accepted with. */
  lemma OwnCheckpoint(p: Platform, rs: seq<Value>, key: Bytes)
    requires ChainOk(p, rs, None) && ChainOk(p, rs, Some(key))
    ensures Checkpoint(p, rs).Some? && CheckpointOk(p, rs, Some(key), Checkpoint(p, rs).value)
  {
    hide ChainOk, Digest;
    NonEmptyChain(p, rs, None);
    CheckpointFields(p, rs, Checkpoint(p, rs).value);
  }

  // ---------- travel ----------

  /** How a record is written down: json.dumps, or its canonical text. */
  datatype Form = PlainText | CanonicalText

  function Written(repr: Repr, f: Form, v: Value): Option<Text> {
    if f.PlainText? then Dumps(repr, v) else Canonical(repr, v)
  }

  /** What json.loads gives for it, with or without the standalone reader's hook. */
  function Received(repr: Repr, unique: bool, f: Form, v: Value): Option<Value> {
    var t :- Written(repr, f, v);
    Loads(unique, t)
  }

  lemma ReceivedSimilar(repr: Repr, unique: bool, f: Form, v: Value)
    requires ReprLaw(repr) && Proper(v) && CanonicalBytes(repr, v).Some?
    ensures Received(repr, unique, f, v).Some? && Similar(v, Received(repr, unique, f, v).value)
  {
    hide Normalise, Loads, Dumps, Proper, ReprLaw, Write;
    BytesExist(repr, v);
    if f.PlainText? {
      var u := PlainReadsBack(repr, unique, v);
    } else {
      var u := CanonicalReadsBack(repr, unique, v);
    }
  }

  /** ws is what arrives when every record of rs is written in its form and parsed again. */
  predicate Arrives(repr: Repr, unique: bool, forms: seq<Form>, rs: seq<Value>, ws: seq<Value>) {
    && |forms| == |rs| == |ws|
    && forall i | 0 <= i < |rs| :: Received(repr, unique, forms[i], rs[i]) == Some(ws[i])
  }

  /** Serialising and re-parsing every record, each in either form, changes no verdict on a chain of
      canonicalisable records, with or without a checkpoint. */
  lemma TravelKeepsVerdict(p: Platform, unique: bool, forms: seq<Form>, rs: seq<Value>, ws: seq<Value>,
                           key: Option<Bytes>, cp: Option<Value>)
    requires ReprLaw(p.repr) && AllProper(rs) && Arrives(p.repr, unique, forms, rs, ws)
    requires forall i | 0 <= i < |rs| :: CanonicalBytes(p.repr, rs[i]).Some?
    ensures Accepted(p, List(rs), key, cp) == Accepted(p, List(ws), key, cp)
  {
    hide Received, Proper, CanonicalBytes, Similar, ReprLaw, ChainOk, CheckpointOk;
    forall i | 0 <= i < |rs| ensures Similar(rs[i], ws[i]) {
      ReceivedSimilar(p.repr, unique, forms[i], rs[i]);
    }
    ChainOfSimilar(p, rs, ws, key);
    EmptyChain(p, key);
  }

  lemma EmptyChain(p: Platform, key: Option<Bytes>)
    ensures !ChainOk(p, [], key)
  {}

  /** A run's chain survives serialisation: every record can be written and read back, and what
      arrives is accepted under the signer's key with the checkpoint of the chain that was sent. */
  lemma RunTravels(p: Platform, seed: Bytes, o: Opening, steps: seq<Amendment>, rs: seq<Value>,
                   unique: bool, forms: seq<Form>) returns (ws: seq<Value>)
    requires Lawful(p) && |seed| == KEY_SIZE && ArgumentsProper(o, steps) && FreshIds(o, steps)
    requires Run(p, seed, o, steps) == Some(rs) && |forms| == |rs|
    ensures Arrives(p.repr, unique, forms, rs, ws)
    ensures Accepted(p, List(ws), Some(p.publicKey(seed)), Checkpoint(p, rs))
  {
    hide Lawful, Run, ArgumentsProper, FreshIds, Received, Proper, CanonicalBytes, Verify, Linked, Checkpoint, IdOf;
    hide CheckpointOk, ReprLaw, Accepted;
    var key := Some(p.publicKey(seed));
    LawfulRepr(p);
    RunGrown(p, seed, o, steps, rs);
    NoKeyFits(p, seed);
    RunAccepted(p, seed, o, steps, rs, key);
    forall i | 0 <= i < |rs|
      ensures CanonicalBytes(p.repr, rs[i]).Some? && Received(p.repr, unique, forms[i], rs[i]).Some?
    {
      assert Verify(p, rs[i], None);
      VerifiedFacts(p, rs[i], None);
      ReceivedSimilar(p.repr, unique, forms[i], rs[i]);
    }
    ws := seq(|rs|, i requires 0 <= i < |rs| => Received(p.repr, unique, forms[i], rs[i]).value);
    TravelKeepsVerdict(p, unique, forms, rs, ws, key, Checkpoint(p, rs));
  }
}
