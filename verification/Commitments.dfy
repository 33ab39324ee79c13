/** What a signed record commits its signer to: records with the same canonical bytes come from the
    same arguments, up to an exhibited digest collision. */
module Commitments {
  import opened Wrappers
  import opened Text
  import opened Numbers
  import opened Json
  import opened NormalForm
  import opened Fields
  import opened Render
  import opened Base64
  import opened Records
  import opened Chains
  import opened Binding
  import opened Builders
  import opened Constructors
  import opened Runs

  /** An optional text as the record shows it: empty is absent. */
  function Shown(k: Text, o: Option<Text>): Option<Value> { if Given(o) then Some(Str(o.value)) else None }

  // ---------- looking things up ----------

  lemma SignedFields(p: Platform, seed: Bytes, kid: Text, body: seq<Member>, v: Value)
    requires Signed(p, seed, kid, body) == Some(v)
    ensures v.Dict? && forall k | k != SIGNATURE :: Field(v, k) == Get(body, k)
    ensures Field(v, SIGNATURE).Some?
    ensures Field(Field(v, SIGNATURE).value, KID) == Some(Str(kid))
  {
    hide Put, Get, SignatureMeta, CanonicalBytes, ValidRecord, Payload, Unsigned, Guarded, B64Url;
    var pub := B64Url(p.publicKey(seed));
    var data := CanonicalBytes(p.repr, Dict(Unsigned(pub, kid, body))).value;
    PayloadIsUnsigned(pub, kid, body, B64Url(p.sign(seed, data)));
    KidField(pub, kid, B64Url(p.sign(seed, data)));
  }

  lemma KidField(pub: Text, kid: Text, sig: Text)
    ensures Field(Dict(Put(SignatureMeta(pub, kid), SIG, Str(sig))), KID) == Some(Str(kid))
  {
    hide Put, Get;
    var ms := SignatureMeta(pub, kid);
    NameShapes();
    GetUnique(ms, ms[1]);
    GetPut(ms, SIG, Str(sig), KID);
  }

  lemma AgentFields(pub: Text, c: Common, name: Option<Text>)
    ensures var a := AgentOf(pub, c, name);
      Field(a, ID) == Some(Str(c.agentId)) && Field(a, PUBLIC_KEY) == Some(Str(pub)) && Field(a, NAME) == Shown(NAME, name)
  {
    hide Get;
    NameShapes();
    var ms := AgentOf(pub, c, name).members;
    GetUnique(ms, ms[0]);
    GetUnique(ms, ms[1]);
    if Given(name) { GetUnique(ms, ms[2]); } else { Absent(ms, NAME); }
  }

  lemma PrincipalFields(x: Text, y: Text)
    ensures Field(Party(ID, x, TYPE, y), ID) == Some(Str(x)) && Field(Party(ID, x, TYPE, y), TYPE) == Some(Str(y))
  {
    hide Get;
    NameShapes();
    var ms := Party(ID, x, TYPE, y).members;
    GetUnique(ms, ms[0]);
    GetUnique(ms, ms[1]);
  }

  lemma ActionFields(a: ActionArgs)
    ensures var d := Dict(ActionOf(a));
      Field(d, TYPE) == Some(Str(a.actionType)) && Field(d, TARGET) == Shown(TARGET, a.actionTarget)
  {
    hide Get;
    NameShapes();
    var ms := ActionOf(a);
    GetUnique(ms, ms[0]);
    if Given(a.actionTarget) { GetUnique(ms, ms[1]); } else { Absent(ms, TARGET); }
  }

  lemma HashFields(p: Platform, data: Bytes)
    ensures Field(Hash(p, data), DIGEST) == Some(Str(B64Url(p.sha256(data))))
  {
    hide Get, B64Url;
    NameShapes();
    var ms := Hash(p, data).members;
    GetUnique(ms, ms[1]);
  }

  lemma RecordLookup(c: Common, agent: Value, action: Value, meta: seq<Member>)
    ensures var ms := RecordShape(c, agent, action, meta);
      && Get(ms, CORRECTION_ID) == Some(Str(c.Id())) && Get(ms, AGENT) == Some(agent)
      && Get(ms, PRINCIPAL) == Some(Party(ID, c.principalId, TYPE, c.principalType)) && Get(ms, ACTION) == Some(action)
      && Get(ms, TIMESTAMP) == Some(Str(c.Time())) && Get(ms, METADATA) == Some(Dict(meta))
  {
    hide Get, Party, UniqueKeys;
    RecordKeys(c, agent, action, meta);
    var ms := RecordShape(c, agent, action, meta);
    GetUnique(ms, ms[0]);
    GetUnique(ms, ms[1]);
    GetUnique(ms, ms[2]);
    GetUnique(ms, ms[3]);
    GetUnique(ms, ms[7]);
    GetUnique(ms, ms[8]);
  }

  lemma RetractLookup(pub: Text, c: Common, r: RetractArgs, pointer: Value, action: Value, fix: seq<Member>)
    ensures var ms := RetractShape(pub, c, r, pointer, action, fix);
      && Get(ms, CORRECTION_ID) == Some(Str(c.Id())) && Get(ms, AGENT) == Some(AgentOf(pub, c, None))
      && Get(ms, PRINCIPAL) == Some(Party(ID, c.principalId, TYPE, c.principalType)) && Get(ms, SUPERSEDES) == Some(pointer)
      && Get(ms, REASON) == Some(Str(r.reason)) && Get(ms, TRIGGER) == Some(Str(r.trigger)) && Get(ms, FIX) == Some(Dict(fix))
      && Get(ms, TIMESTAMP) == Some(Str(c.Time())) && Get(ms, METADATA) == Some(Dict(c.Meta()))
  {
    hide Get, Party, UniqueKeys, AgentOf;
    RetractKeys(pub, c, r, pointer, action, fix);
    var ms := RetractShape(pub, c, r, pointer, action, fix);
    GetUnique(ms, ms[0]);
    GetUnique(ms, ms[1]);
    GetUnique(ms, ms[2]);
    GetUnique(ms, ms[3]);
    GetUnique(ms, ms[5]);
    GetUnique(ms, ms[6]);
    GetUnique(ms, ms[7]);
    GetUnique(ms, ms[8]);
    GetUnique(ms, ms[9]);
  }

  lemma UnknownLookup(c: Common, u: UnknownArgs, agent: Value)
    ensures var ms := UnknownShape(c, u, agent);
      && Get(ms, CORRECTION_ID) == Some(Str(c.Id())) && Get(ms, AGENT) == Some(agent)
      && Get(ms, PRINCIPAL) == Some(Party(ID, c.principalId, TYPE, c.principalType)) && Get(ms, KIND) == Some(Str(UNKNOWN))
      && Get(ms, SUBJECT) == Some(Str(u.subject)) && Get(ms, NOTE) == Some(Str(if u.note.Some? then u.note.value else []))
      && Get(ms, TIMESTAMP) == Some(Str(c.Time())) && Get(ms, METADATA) == Some(Dict(c.Meta()))
  {
    hide Get, Party, UniqueKeys;
    UnknownKeys(c, u, agent);
    var ms := UnknownShape(c, u, agent);
    GetUnique(ms, ms[0]);
    GetUnique(ms, ms[1]);
    GetUnique(ms, ms[2]);
    GetUnique(ms, ms[3]);
    GetUnique(ms, ms[4]);
    GetUnique(ms, ms[5]);
    GetUnique(ms, ms[6]);
    GetUnique(ms, ms[7]);
  }

  // ---------- what similarity forces ----------

  lemma TextBinds(v: Value, w: Value, k: Text, s: Text, t: Text)
    requires Similar(v, w) && Field(v, k) == Some(Str(s)) && Field(w, k) == Some(Str(t))
    ensures s == t
  {
    hide Similar, Field;
    SimilarField(v, w, k);
    SimilarDicts(Str(s), Str(t));
  }

  lemma ShownBinds(v: Value, w: Value, k: Text, o: Option<Text>, o': Option<Text>)
    requires Similar(v, w) && Field(v, k) == Shown(k, o) && Field(w, k) == Shown(k, o')
    ensures Shown(k, o) == Shown(k, o')
  {
    hide Similar, Field;
    SimilarField(v, w, k);
    if Given(o) { TextBinds(v, w, k, o.value, o'.value); }
  }

  lemma InnerBinds(v: Value, w: Value, k: Text, x: Value, y: Value)
    requires Similar(v, w) && Field(v, k) == Some(x) && Field(w, k) == Some(y)
    ensures Similar(x, y)
  {
    hide Similar, Field;
    SimilarField(v, w, k);
  }

  /** Different data with the same digest. */
  predicate Clash(p: Platform, a: Bytes, b: Bytes) { a != b && p.sha256(a) == p.sha256(b) }

  lemma HashBinds(p: Platform, a: Bytes, b: Bytes)
    requires Similar(Hash(p, a), Hash(p, b))
    ensures a == b || Clash(p, a, b)
  {
    hide Similar, Field, B64Url, Hash;
    HashFields(p, a);
    HashFields(p, b);
    TextBinds(Hash(p, a), Hash(p, b), DIGEST, B64Url(p.sha256(a)), B64Url(p.sha256(b)));
    B64UrlInjective(p.sha256(a), p.sha256(b));
  }

  /** Both omitted, or hashed from the same bytes, up to a clash. */
  predicate SameContent(p: Platform, x: Value, y: Value) {
    && (x.Null? <==> y.Null?)
    && (!x.Null? ==>
          var a, b := ContentBytes(p, x), ContentBytes(p, y);
          a.Some? && b.Some? && (a == b || Clash(p, a.value, b.value)))
  }

  /** What stands under a hash name: the hash of a given value, or whatever was there before. */
  function Stored(p: Platform, kept: Option<Value>, x: Value): Option<Value>
    requires !x.Null? ==> ContentBytes(p, x).Some?
  {
    if x.Null? then kept else Some(Hash(p, ContentBytes(p, x).value))
  }

  /** x was omitted, and what was kept in its place is canonically the hash of y. */
  predicate Shadow(p: Platform, kept: Option<Value>, x: Value, y: Value) {
    && x.Null? && !y.Null? && kept.Some? && ContentBytes(p, y).Some?
    && Similar(kept.value, Hash(p, ContentBytes(p, y).value))
  }

  /** Equal stored hashes come from the same content, except exactly when one side kept the hash of
      what the other side was given. */
  lemma StoredBinds(p: Platform, v: Value, w: Value, k: Text, kept: Option<Value>, x: Value, kept': Option<Value>, y: Value)
    requires Similar(v, w)
    requires !x.Null? ==> ContentBytes(p, x).Some?
    requires !y.Null? ==> ContentBytes(p, y).Some?
    requires Field(v, k) == Stored(p, kept, x) && Field(w, k) == Stored(p, kept', y)
    ensures SameContent(p, x, y) <==> !Shadow(p, kept, x, y) && !Shadow(p, kept', y, x)
  {
    SimilarSwap(v, w);
    hide Similar, Field, Hash, ContentBytes;
    SimilarField(v, w, k);
    SimilarField(w, v, k);
    if !x.Null? && !y.Null? { HashBinds(p, ContentBytes(p, x).value, ContentBytes(p, y).value); }
  }

  lemma SimilarSwap(v: Value, w: Value)
    requires Similar(v, w)
    ensures Similar(w, v)
  {}

  predicate SameCommon(c: Common, pub: Text, c': Common, pub': Text) {
    && pub == pub' && c.Id() == c'.Id() && c.Time() == c'.Time() && c.KeyId(pub) == c'.KeyId(pub')
    && c.agentId == c'.agentId && c.principalId == c'.principalId && c.principalType == c'.principalType
  }

  /** The members every constructor writes. */
  predicate Carries(v: Value, pub: Text, c: Common, name: Option<Text>) {
    && Field(v, CORRECTION_ID) == Some(Str(c.Id())) && Field(v, TIMESTAMP) == Some(Str(c.Time()))
    && Field(v, AGENT) == Some(AgentOf(pub, c, name))
    && Field(v, PRINCIPAL) == Some(Party(ID, c.principalId, TYPE, c.principalType))
    && Field(v, SIGNATURE).Some? && Field(Field(v, SIGNATURE).value, KID) == Some(Str(c.KeyId(pub)))
  }

  lemma CommonBinds(v: Value, w: Value, pub: Text, c: Common, name: Option<Text>, pub': Text, c': Common, name': Option<Text>)
    requires Similar(v, w) && Carries(v, pub, c, name) && Carries(w, pub', c', name')
    ensures SameCommon(c, pub, c', pub') && Shown(NAME, name) == Shown(NAME, name')
  {
    hide Similar, Field, AgentOf, Party, Shown;
    TextBinds(v, w, CORRECTION_ID, c.Id(), c'.Id());
    TextBinds(v, w, TIMESTAMP, c.Time(), c'.Time());
    InnerBinds(v, w, SIGNATURE, Field(v, SIGNATURE).value, Field(w, SIGNATURE).value);
    TextBinds(Field(v, SIGNATURE).value, Field(w, SIGNATURE).value, KID, c.KeyId(pub), c'.KeyId(pub'));
    var a, a' := AgentOf(pub, c, name), AgentOf(pub', c', name');
    InnerBinds(v, w, AGENT, a, a');
    AgentFields(pub, c, name);
    AgentFields(pub', c', name');
    TextBinds(a, a', ID, c.agentId, c'.agentId);
    TextBinds(a, a', PUBLIC_KEY, pub, pub');
    ShownBinds(a, a', NAME, name, name');
    var q, q' := Party(ID, c.principalId, TYPE, c.principalType), Party(ID, c'.principalId, TYPE, c'.principalType);
    InnerBinds(v, w, PRINCIPAL, q, q');
    PrincipalFields(c.principalId, c.principalType);
    PrincipalFields(c'.principalId, c'.principalType);
    TextBinds(q, q', ID, c.principalId, c'.principalId);
    TextBinds(q, q', TYPE, c.principalType, c'.principalType);
  }

  /** Built records with the same canonical bytes are similar. */
  lemma BuiltSimilar(p: Platform, seed: Bytes, v: Value, id: Text, pointer: Option<Value>,
                     seed': Bytes, w: Value, id': Text, pointer': Option<Value>)
    requires Lawful(p) && BuiltAs(p, seed, v, id, pointer) && BuiltAs(p, seed', w, id', pointer')
    requires CanonicalBytes(p.repr, v) == CanonicalBytes(p.repr, w)
    ensures Similar(v, w)
  {
    hide Lawful, Verify, CanonicalBytes, Proper, Field;
    LawfulRepr(p);
    NoKeyFits(p, seed);
    assert Verify(p, v, None);
    VerifiedFacts(p, v, None);
    SimilarByBytes(p, v, w);
  }

  lemma NamesApart()
    ensures SIGNATURE !in [CORRECTION_ID, AGENT, PRINCIPAL, ACTION, REASON, TRIGGER, FIX, TIMESTAMP, METADATA, SUBJECT, NOTE]
    ensures INPUT_HASH != OUTPUT_HASH
  {
    NameShapes();
    assert |INPUT_HASH| == 9 && |OUTPUT_HASH| == 10;
  }

  // ---------- record ----------

  /** The metadata a record carries. */
  function RecordMeta(p: Platform, c: Common, a: ActionArgs): Option<seq<Member>> {
    var m1 :- WithHash(p, c.Meta(), INPUT_HASH, a.args);
    WithHash(p, m1, OUTPUT_HASH, a.result)
  }

  lemma RecordCarries(p: Platform, seed: Bytes, c: Common, a: ActionArgs, v: Value)
    requires RecordOf(p, seed, c, a) == Some(v)
    ensures Carries(v, B64Url(p.publicKey(seed)), c, a.agentName)
    ensures Field(v, ACTION) == Some(Dict(ActionOf(a)))
    ensures RecordMeta(p, c, a).Some? && Field(v, METADATA) == Some(Dict(RecordMeta(p, c, a).value))
  {
    hide Signed, Field, Get, RecordShape, GuardedDict, WithHash, AgentOf, Party, B64Url;
    var pub := B64Url(p.publicKey(seed));
    var agent, action, meta := AgentOf(pub, c, a.agentName), Dict(ActionOf(a)), RecordMeta(p, c, a).value;
    SignedFields(p, seed, c.KeyId(pub), RecordShape(c, agent, action, meta), v);
    RecordLookup(c, agent, action, meta);
    NamesApart();
  }

  /** What the metadata of a record says of its arguments, and of the caller's own metadata. */
  lemma RecordMetaFields(p: Platform, c: Common, a: ActionArgs)
    requires RecordMeta(p, c, a).Some?
    ensures !a.args.Null? ==> ContentBytes(p, a.args).Some?
    ensures !a.result.Null? ==> ContentBytes(p, a.result).Some?
    ensures var m := Dict(RecordMeta(p, c, a).value);
      && Field(m, INPUT_HASH) == Stored(p, Get(c.Meta(), INPUT_HASH), a.args)
      && Field(m, OUTPUT_HASH) == Stored(p, Get(c.Meta(), OUTPUT_HASH), a.result)
      && forall k | k != INPUT_HASH && k != OUTPUT_HASH :: Field(m, k) == Get(c.Meta(), k)
  {
    hide Put, Get, ContentBytes, Hash;
    NamesApart();
    var ms := c.Meta();
    var m1 := WithHash(p, ms, INPUT_HASH, a.args).value;
    forall k
      ensures !a.args.Null? ==>
        Get(m1, k) == if k == INPUT_HASH then Some(Hash(p, ContentBytes(p, a.args).value)) else Get(ms, k)
    {
      if !a.args.Null? { GetPut(ms, INPUT_HASH, Hash(p, ContentBytes(p, a.args).value), k); }
    }
    var m2 := WithHash(p, m1, OUTPUT_HASH, a.result).value;
    forall k
      ensures !a.result.Null? ==>
        Get(m2, k) == if k == OUTPUT_HASH then Some(Hash(p, ContentBytes(p, a.result).value)) else Get(m1, k)
    {
      if !a.result.Null? { GetPut(m1, OUTPUT_HASH, Hash(p, ContentBytes(p, a.result).value), k); }
    }
  }

  /** The two records commit to the same hashed argument under k, except exactly in the shadow case. */
  predicate CommittedUnless(p: Platform, k: Text, c: Common, x: Value, c': Common, y: Value) {
    SameContent(p, x, y) <==> !Shadow(p, Get(c.Meta(), k), x, y) && !Shadow(p, Get(c'.Meta(), k), y, x)
  }

  /** Records of record() with the same canonical bytes were made by the same key from the same
      arguments: texts are equal, and hashed arguments come from equal bytes or exhibit a clash,
      except exactly when one caller omitted an argument and put its hash in the metadata instead. */
  lemma RecordCommits(p: Platform, seed: Bytes, c: Common, a: ActionArgs, v: Value,
                      seed': Bytes, c': Common, a': ActionArgs, w: Value)
    requires Lawful(p) && |seed| == KEY_SIZE && |seed'| == KEY_SIZE && CommonProper(c) && CommonProper(c')
    requires RecordOf(p, seed, c, a) == Some(v) && RecordOf(p, seed', c', a') == Some(w)
    requires CanonicalBytes(p.repr, v) == CanonicalBytes(p.repr, w)
    ensures SameCommon(c, B64Url(p.publicKey(seed)), c', B64Url(p.publicKey(seed')))
    ensures Shown(NAME, a.agentName) == Shown(NAME, a'.agentName) && a.actionType == a'.actionType
    ensures Shown(TARGET, a.actionTarget) == Shown(TARGET, a'.actionTarget)
    ensures CommittedUnless(p, INPUT_HASH, c, a.args, c', a'.args)
    ensures CommittedUnless(p, OUTPUT_HASH, c, a.result, c', a'.result)
    ensures forall k | k != INPUT_HASH && k != OUTPUT_HASH :: SimilarOpt(Get(c.Meta(), k), Get(c'.Meta(), k))
  {
    hide Lawful, RecordOf, Similar, BuiltAs, CanonicalBytes, Field, Get, ContentBytes, Hash, Carries, SameContent, Shown;
    hide RecordMeta, ActionOf, SameCommon, B64Url, CommonProper, Shadow, Stored;
    RecordBuilt(p, seed, c, a, v);
    RecordBuilt(p, seed', c', a', w);
    BuiltSimilar(p, seed, v, c.Id(), None, seed', w, c'.Id(), None);
    RecordCarries(p, seed, c, a, v);
    RecordCarries(p, seed', c', a', w);
    CommonBinds(v, w, B64Url(p.publicKey(seed)), c, a.agentName, B64Url(p.publicKey(seed')), c', a'.agentName);
    var d, d' := Dict(ActionOf(a)), Dict(ActionOf(a'));
    InnerBinds(v, w, ACTION, d, d');
    ActionFields(a);
    ActionFields(a');
    TextBinds(d, d', TYPE, a.actionType, a'.actionType);
    ShownBinds(d, d', TARGET, a.actionTarget, a'.actionTarget);
    var m, m' := Dict(RecordMeta(p, c, a).value), Dict(RecordMeta(p, c', a').value);
    InnerBinds(v, w, METADATA, m, m');
    RecordMetaFields(p, c, a);
    RecordMetaFields(p, c', a');
    StoredBinds(p, m, m', INPUT_HASH, Get(c.Meta(), INPUT_HASH), a.args, Get(c'.Meta(), INPUT_HASH), a'.args);
    StoredBinds(p, m, m', OUTPUT_HASH, Get(c.Meta(), OUTPUT_HASH), a.result, Get(c'.Meta(), OUTPUT_HASH), a'.result);
    forall k | k != INPUT_HASH && k != OUTPUT_HASH ensures SimilarOpt(Get(c.Meta(), k), Get(c'.Meta(), k)) {
      SimilarField(m, m', k);
    }
  }

  /** What a caller can see to: an argument that is omitted leaves its name alone in the metadata. */
  predicate NamesLeft(c: Common, a: ActionArgs) {
    && (a.args.Null? ==> !HasKey(c.Meta(), INPUT_HASH))
    && (a.result.Null? ==> !HasKey(c.Meta(), OUTPUT_HASH))
  }

  /** For callers who do, the commitment to both hashed arguments holds outright. */
  lemma CarefulRecordCommits(p: Platform, seed: Bytes, c: Common, a: ActionArgs, v: Value,
                             seed': Bytes, c': Common, a': ActionArgs, w: Value)
    requires Lawful(p) && |seed| == KEY_SIZE && |seed'| == KEY_SIZE && CommonProper(c) && CommonProper(c')
    requires RecordOf(p, seed, c, a) == Some(v) && RecordOf(p, seed', c', a') == Some(w)
    requires CanonicalBytes(p.repr, v) == CanonicalBytes(p.repr, w)
    requires NamesLeft(c, a) && NamesLeft(c', a')
    ensures SameContent(p, a.args, a'.args) && SameContent(p, a.result, a'.result)
  {
    hide Lawful, RecordOf, Similar, CanonicalBytes, ContentBytes, Hash, SameContent, CommonProper, Get;
    RecordCommits(p, seed, c, a, v, seed', c', a', w);
  }

  /** The exception is real, for either name and for both: metadata that already holds the hashes
      makes the same record whether or not the arguments are given. */
  lemma HashShadowed(p: Platform, seed: Bytes, c: Common, a: ActionArgs, args: bool, result: bool)
    requires RecordMeta(p, c, a).Some? && GuardedDict(a.args) && GuardedDict(a.result)
    ensures var shadow := c.(metadata := RecordMeta(p, c, a));
      var b := a.(args := if args then a.args else Null, result := if result then a.result else Null);
      RecordOf(p, seed, shadow, b) == RecordOf(p, seed, c, a)
  {
    hide Put, Get, Guarded, ContentBytes, Hash, Signed, RecordShape;
    NamesApart();
    var m := RecordMeta(p, c, a).value;
    RecordMetaFields(p, c, a);
    if !a.args.Null? {
      var h := Hash(p, ContentBytes(p, a.args).value);
      PutPut(m, INPUT_HASH, h, h);
    }
    if !a.result.Null? {
      var h := Hash(p, ContentBytes(p, a.result).value);
      PutPut(m, OUTPUT_HASH, h, h);
    }
    ShapeIgnoresMetadata(c, Some(m));
  }

  lemma ShapeIgnoresMetadata(c: Common, metadata: Option<seq<Member>>)
    ensures var d := c.(metadata := metadata);
      && (forall agent, action, meta :: RecordShape(d, agent, action, meta) == RecordShape(c, agent, action, meta))
      && (forall pub, name :: AgentOf(pub, d, name) == AgentOf(pub, c, name))
      && (forall pub :: d.KeyId(pub) == c.KeyId(pub))
  {}

  // ---------- unknown ----------

  lemma UnknownCarries(p: Platform, seed: Bytes, c: Common, u: UnknownArgs, v: Value)
    requires UnknownOf(p, seed, c, u) == Some(v)
    ensures Carries(v, B64Url(p.publicKey(seed)), c, u.agentName)
    ensures Field(v, SUBJECT) == Some(Str(u.subject)) && Field(v, METADATA) == Some(Dict(c.Meta()))
    ensures Field(v, NOTE) == Some(Str(if u.note.Some? then u.note.value else []))
  {
    hide Signed, Field, Get, UnknownShape, AgentOf, Party, B64Url;
    var pub := B64Url(p.publicKey(seed));
    var agent := AgentOf(pub, c, u.agentName);
    SignedFields(p, seed, c.KeyId(pub), UnknownShape(c, u, agent), v);
    UnknownLookup(c, u, agent);
    NamesApart();
  }

  /** Records of unknown() with the same canonical bytes were made from the same arguments. */
  lemma UnknownCommits(p: Platform, seed: Bytes, c: Common, u: UnknownArgs, v: Value,
                       seed': Bytes, c': Common, u': UnknownArgs, w: Value)
    requires Lawful(p) && |seed| == KEY_SIZE && |seed'| == KEY_SIZE && CommonProper(c) && CommonProper(c')
    requires UnknownOf(p, seed, c, u) == Some(v) && UnknownOf(p, seed', c', u') == Some(w)
    requires CanonicalBytes(p.repr, v) == CanonicalBytes(p.repr, w)
    ensures SameCommon(c, B64Url(p.publicKey(seed)), c', B64Url(p.publicKey(seed')))
    ensures Shown(NAME, u.agentName) == Shown(NAME, u'.agentName) && u.subject == u'.subject
    ensures Shown(NOTE, u.note) == Shown(NOTE, u'.note)
    ensures Similar(Dict(c.Meta()), Dict(c'.Meta()))
  {
    hide Lawful, UnknownOf, Similar, BuiltAs, CanonicalBytes, Field, Carries, SameCommon, B64Url, CommonProper;
    UnknownBuilt(p, seed, c, u, v);
    UnknownBuilt(p, seed', c', u', w);
    BuiltSimilar(p, seed, v, c.Id(), None, seed', w, c'.Id(), None);
    UnknownCarries(p, seed, c, u, v);
    UnknownCarries(p, seed', c', u', w);
    CommonBinds(v, w, B64Url(p.publicKey(seed)), c, u.agentName, B64Url(p.publicKey(seed')), c', u'.agentName);
    TextBinds(v, w, SUBJECT, u.subject, u'.subject);
    TextBinds(v, w, NOTE, if u.note.Some? then u.note.value else [], if u'.note.Some? then u'.note.value else []);
    InnerBinds(v, w, METADATA, Dict(c.Meta()), Dict(c'.Meta()));
  }

  // ---------- retract ----------

  lemma RetractCarries(p: Platform, seed: Bytes, prior: Value, c: Common, r: RetractArgs, v: Value)
    requires RetractOf(p, seed, prior, c, r) == Some(v)
    ensures Carries(v, B64Url(p.publicKey(seed)), c, None)
    ensures CanonicalBytes(p.repr, prior).Some?
    ensures Field(v, SUPERSEDES) == Some(Pointer(p, prior, CanonicalBytes(p.repr, prior).value))
    ensures Field(v, REASON) == Some(Str(r.reason)) && Field(v, TRIGGER) == Some(Str(r.trigger))
    ensures FixOf(p, r).Some? && Field(v, FIX) == Some(Dict(FixOf(p, r).value))
    ensures Field(v, METADATA) == Some(Dict(c.Meta())) && ChoicesOk(r)
  {
    hide Signed, Field, Get, RetractShape, AgentOf, Party, B64Url, Pointer, CanonicalBytes, PriorAction, FixOf, ChoicesOk;
    var pub := B64Url(p.publicKey(seed));
    var data, action, fix := CanonicalBytes(p.repr, prior).value, PriorAction(prior).value, FixOf(p, r).value;
    SignedFields(p, seed, c.KeyId(pub), RetractShape(pub, c, r, Pointer(p, prior, data), action, fix), v);
    RetractLookup(pub, c, r, Pointer(p, prior, data), action, fix);
    NamesApart();
    SupersedesApart();
  }

  lemma SupersedesApart()
    ensures SIGNATURE != SUPERSEDES
  {
    NameShapes();
  }

  function SourceShown(r: RetractArgs): Option<Value> {
    if SourceOf(r) == [] then None else Some(SourceOf(r)[0].value)
  }

  lemma FixFields(p: Platform, r: RetractArgs)
    requires FixOf(p, r).Some?
    ensures !r.corrected.Null? ==> ContentBytes(p, r.corrected).Some?
    ensures var d := Dict(FixOf(p, r).value);
      && Field(d, TYPE) == Some(Str(r.fixType)) && Field(d, NOTE) == Shown(NOTE, r.fixNote)
      && Field(d, CONTENT_HASH) == (if r.corrected.Null? then None else Some(Hash(p, ContentBytes(p, r.corrected).value)))
      && Field(d, SOURCE) == SourceShown(r)
  {
    hide Get, Put, ContentBytes, Hash, GuardedDict, Party;
    OptionalNames();
    var start := [Member(TYPE, Str(r.fixType))] + Optional(NOTE, r.fixNote);
    if !r.corrected.Null? { Append(start, CONTENT_HASH, Hash(p, ContentBytes(p, r.corrected).value)); }
    var ms := FixOf(p, r).value;
    assert UniqueKeys(ms);
    GetUnique(ms, ms[0]);
    if Given(r.fixNote) { GetUnique(ms, ms[1]); } else { Absent(ms, NOTE); }
    if r.corrected.Null? { Absent(ms, CONTENT_HASH); } else { GetUnique(ms, ms[|start|]); }
    if SourceOf(r) == [] { Absent(ms, SOURCE); } else { GetUnique(ms, ms[|ms| - 1]); }
  }

  lemma PointerBinds(p: Platform, prior: Value, data: Bytes, prior': Value, data': Bytes)
    requires Similar(Pointer(p, prior, data), Pointer(p, prior', data'))
    ensures data == data' || Clash(p, data, data')
  {
    hide Similar, Get, PriorId, Hash;
    NameShapes();
    var ms, ms' := Pointer(p, prior, data).members, Pointer(p, prior', data').members;
    GetUnique(ms, ms[1]);
    GetUnique(ms', ms'[1]);
    InnerBinds(Dict(ms), Dict(ms'), DIGEST, Hash(p, data), Hash(p, data'));
    HashBinds(p, data, data');
  }

  lemma SourceBinds(d: Value, d': Value, r: RetractArgs, r': RetractArgs)
    requires Similar(d, d') && Field(d, SOURCE) == SourceShown(r) && Field(d', SOURCE) == SourceShown(r')
    requires r.sourceType.None? <==> r.sourceReference.None?
    requires r'.sourceType.None? <==> r'.sourceReference.None?
    ensures r.sourceType == r'.sourceType && r.sourceReference == r'.sourceReference
  {
    hide Similar, Field, Party;
    SimilarField(d, d', SOURCE);
    if r.sourceType.Some? {
      var s := Party(TYPE, r.sourceType.value, REFERENCE, r.sourceReference.value);
      var s' := Party(TYPE, r'.sourceType.value, REFERENCE, r'.sourceReference.value);
      SourceFields(r.sourceType.value, r.sourceReference.value);
      SourceFields(r'.sourceType.value, r'.sourceReference.value);
      TextBinds(s, s', TYPE, r.sourceType.value, r'.sourceType.value);
      TextBinds(s, s', REFERENCE, r.sourceReference.value, r'.sourceReference.value);
    }
  }

  lemma SourceFields(x: Text, y: Text)
    ensures Field(Party(TYPE, x, REFERENCE, y), TYPE) == Some(Str(x))
    ensures Field(Party(TYPE, x, REFERENCE, y), REFERENCE) == Some(Str(y))
  {
    hide Get;
    NameShapes();
    var ms := Party(TYPE, x, REFERENCE, y).members;
    GetUnique(ms, ms[0]);
    GetUnique(ms, ms[1]);
  }

  /** Corrections of retract() with the same canonical bytes amend the same prior record, canonically,
      for the same reasons and with the same fix, or exhibit a digest clash. */
  lemma RetractCommits(p: Platform, seed: Bytes, prior: Value, c: Common, r: RetractArgs, v: Value,
                       seed': Bytes, prior': Value, c': Common, r': RetractArgs, w: Value)
    requires Lawful(p) && |seed| == KEY_SIZE && |seed'| == KEY_SIZE && CommonProper(c) && CommonProper(c')
    requires Proper(prior) && Proper(prior')
    requires RetractOf(p, seed, prior, c, r) == Some(v) && RetractOf(p, seed', prior', c', r') == Some(w)
    requires CanonicalBytes(p.repr, v) == CanonicalBytes(p.repr, w)
    ensures SameCommon(c, B64Url(p.publicKey(seed)), c', B64Url(p.publicKey(seed')))
    ensures CanonicalBytes(p.repr, prior) == CanonicalBytes(p.repr, prior') || Collide(p, prior, prior')
    ensures r.reason == r'.reason && r.trigger == r'.trigger && r.fixType == r'.fixType
    ensures Shown(NOTE, r.fixNote) == Shown(NOTE, r'.fixNote) && SameContent(p, r.corrected, r'.corrected)
    ensures r.sourceType == r'.sourceType && r.sourceReference == r'.sourceReference
    ensures Similar(Dict(c.Meta()), Dict(c'.Meta()))
  {
    hide Lawful, RetractOf, Similar, BuiltAs, CanonicalBytes, Field, Carries, SameCommon, B64Url, CommonProper, Pointer;
    hide Proper, FixOf, ContentBytes, SameContent, Hash, SourceShown, Shown;
    RetractBuilt(p, seed, prior, c, r, v);
    RetractBuilt(p, seed', prior', c', r', w);
    var b, b' := CanonicalBytes(p.repr, prior).value, CanonicalBytes(p.repr, prior').value;
    BuiltSimilar(p, seed, v, c.Id(), Some(Pointer(p, prior, b)), seed', w, c'.Id(), Some(Pointer(p, prior', b')));
    RetractCarries(p, seed, prior, c, r, v);
    RetractCarries(p, seed', prior', c', r', w);
    CommonBinds(v, w, B64Url(p.publicKey(seed)), c, None, B64Url(p.publicKey(seed')), c', None);
    InnerBinds(v, w, SUPERSEDES, Pointer(p, prior, b), Pointer(p, prior', b'));
    PointerBinds(p, prior, b, prior', b');
    TextBinds(v, w, REASON, r.reason, r'.reason);
    TextBinds(v, w, TRIGGER, r.trigger, r'.trigger);
    InnerBinds(v, w, METADATA, Dict(c.Meta()), Dict(c'.Meta()));
    var d, d' := Dict(FixOf(p, r).value), Dict(FixOf(p, r').value);
    InnerBinds(v, w, FIX, d, d');
    FixFields(p, r);
    FixFields(p, r');
    TextBinds(d, d', TYPE, r.fixType, r'.fixType);
    ShownBinds(d, d', NOTE, r.fixNote, r'.fixNote);
    StoredBinds(p, d, d', CONTENT_HASH, None, r.corrected, None, r'.corrected);
    SourceBinds(d, d', r, r');
  }
}
