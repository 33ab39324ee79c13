/** What the constructors write, member by member and in the program's own words: the whole signed
    record, what its hashes are hashes of, and how an action's type travels down a run. */
module Contents {
  import opened Wrappers
  import opened Text
  import opened Numbers
  import opened Json
  import opened NormalForm
  import opened Render
  import opened Base64
  import opened Records
  import opened Chains
  import opened Binding
  import opened Builders
  import opened Constructors
  import opened Runs
  import opened Commitments
  import opened Admissible

  // ---------- literals ----------

  /** {"name": value, ...}. */
  function Obj(ps: seq<(string, Value)>): Value {
    Dict(seq(|ps|, i requires 0 <= i < |ps| => Member(T(ps[i].0), ps[i].1)))
  }

  /** v["a"]["b"], where there is one. */
  function At(v: Value, path: seq<string>): Option<Value>
    decreases |path|
  {
    if path == [] then Some(v)
    else
      var w :- Field(v, T(path[0]));
      At(w, path[1..])
  }

  lemma AtOne(v: Value, a: string)
    ensures At(v, [a]) == Field(v, T(a))
  {
    assert [a][1..] == [];
  }

  lemma AtTwo(v: Value, a: string, b: string)
    ensures At(v, [a, b]) == if Field(v, T(a)).Some? then Field(Field(v, T(a)).value, T(b)) else None
  {
    assert [a, b][1..] == [b];
    if Field(v, T(a)).Some? { AtOne(Field(v, T(a)).value, b); }
  }

  /** A member that is there when the text is given and not empty. */
  function Shows(name: string, o: Option<Text>): seq<(string, Value)> {
    if o == None || o == Some([]) then [] else [(name, Str(o.value))]
  }

  function Or(o: Option<Text>, default: Text): Text { if o.Some? then o.value else default }

  function AgentObj(pub: Text, c: Common, name: Option<Text>): Value {
    Obj([("id", Str(c.agentId)), ("publicKey", Str(pub))] + Shows("name", name))
  }

  function PrincipalObj(c: Common): Value { Obj([("id", Str(c.principalId)), ("type", Str(c.principalType))]) }

  /** The hash that stands for x: of its canonical bytes if it is a dictionary, of str(x) if not. */
  predicate HashOf(p: Platform, h: Value, x: Value) {
    var data := if x.Dict? then CanonicalBytes(p.repr, x) else p.encodeStr(x);
    data.Some? && h == Obj([("alg", Str(T("sha256"))), ("digest", Str(B64Url(p.sha256(data.value))))])
  }

  lemma HashSpelled(p: Platform, data: Bytes)
    ensures Hash(p, data) == Obj([("alg", Str(T("sha256"))), ("digest", Str(B64Url(p.sha256(data))))])
  {
    hide B64Url, T;
  }

  lemma HashIsOf(p: Platform, x: Value)
    requires ContentBytes(p, x).Some?
    ensures HashOf(p, Hash(p, ContentBytes(p, x).value), x)
  {
    hide CanonicalBytes, Hash, B64Url, T;
    HashSpelled(p, ContentBytes(p, x).value);
  }

  lemma AgentSpelled(pub: Text, c: Common, name: Option<Text>)
    ensures AgentOf(pub, c, name) == AgentObj(pub, c, name)
  {
    hide T;
  }

  lemma PrincipalSpelled(c: Common)
    ensures Party(ID, c.principalId, TYPE, c.principalType) == PrincipalObj(c)
  {
    hide T;
  }

  // ---------- signing ----------

  function SignatureObj(kid: Text, pub: Text, sig: Text): Value {
    Obj([("alg", Str(T("Ed25519"))), ("kid", Str(kid)), ("publicKey", Str(pub)),
         ("canonicalization", Str(T("RFC8785"))), ("sig", Str(sig))])
  }

  lemma SignatureSpelled(kid: Text, pub: Text, sig: Text)
    ensures Dict(SignatureMeta(pub, kid)) == SignatureObj(kid, pub, [])
    ensures Dict(Put(SignatureMeta(pub, kid), SIG, Str(sig))) == SignatureObj(kid, pub, sig)
  {
    NameShapes();
    hide T, Put;
    PutAt(SignatureMeta(pub, kid), 4, Str(sig));
  }

  /** Signing adds one member at the end: the block whose text signs the canonical bytes of the record
      with that text empty. */
  lemma SignedMade(p: Platform, seed: Bytes, kid: Text, body: seq<Member>, v: Value) returns (data: Bytes)
    requires Signed(p, seed, kid, body) == Some(v) && !HasKey(body, T("signature"))
    ensures var pub := B64Url(p.publicKey(seed));
      && CanonicalBytes(p.repr, Dict(body + [Member(T("signature"), SignatureObj(kid, pub, []))])) == Some(data)
      && v == Dict(body + [Member(T("signature"), SignatureObj(kid, pub, B64Url(p.sign(seed, data))))])
  {
    hide Put, CanonicalBytes, ValidRecord, Guarded, SignatureMeta, B64Url, SignatureObj, T;
    var pub := B64Url(p.publicKey(seed));
    data := CanonicalBytes(p.repr, Dict(Unsigned(pub, kid, body))).value;
    var sig := B64Url(p.sign(seed, data));
    SignatureSpelled(kid, pub, sig);
    PutKeeps(body, SIGNATURE, SignatureObj(kid, pub, []));
    PutKeeps(body, SIGNATURE, SignatureObj(kid, pub, sig));
    PutPut(body, SIGNATURE, SignatureObj(kid, pub, []), SignatureObj(kid, pub, sig));
  }

  lemma ObjAdd(ps: seq<(string, Value)>, name: string, x: Value)
    ensures Dict(Obj(ps).members + [Member(T(name), x)]) == Obj(ps + [(name, x)])
  {
    hide T;
  }

  lemma ObjField(ps: seq<(string, Value)>, i: nat)
    requires UniqueKeys(Obj(ps).members) && i < |ps|
    ensures Field(Obj(ps), T(ps[i].0)) == Some(ps[i].1)
  {
    hide T, UniqueKeys, Get;
    GetUnique(Obj(ps).members, Obj(ps).members[i]);
  }

  /** What verification checks the signature of: the record with its signature text emptied, and nothing
      else changed. */
  lemma PayloadMeans(v: Value)
    requires At(v, ["signature"]).Some? && At(v, ["signature"]).value.Dict?
    ensures At(Payload(v), ["signature", "sig"]) == Some(Str(T("")))
    ensures forall k | k != T("sig") :: Field(At(Payload(v), ["signature"]).value, k) == Field(At(v, ["signature"]).value, k)
    ensures forall k | k != T("signature") :: Field(Payload(v), k) == Field(v, k)
  {
    assert T("") == [];
    hide Get, Put, T, At;
    AtOne(v, "signature");
    var meta := Field(v, SIGNATURE).value;
    var emptied := Dict(Put(meta.members, SIG, Str([])));
    forall k
      ensures Get(Put(meta.members, SIG, Str([])), k) == if k == SIG then Some(Str([])) else Get(meta.members, k)
      ensures Get(Put(v.members, SIGNATURE, emptied), k) == if k == SIGNATURE then Some(emptied) else Get(v.members, k)
    {
      GetPut(meta.members, SIG, Str([]), k);
      GetPut(v.members, SIGNATURE, emptied, k);
    }
    AtOne(Payload(v), "signature");
    AtTwo(Payload(v), "signature", "sig");
  }

  // ---------- record ----------

  function RecordFields(pub: Text, c: Common, a: ActionArgs, meta: seq<Member>): seq<(string, Value)> {
    [ ("correctionId", Str(Or(c.correctionId, c.uuid))),
      ("agent", AgentObj(pub, c, a.agentName)),
      ("principal", PrincipalObj(c)),
      ("action", Obj([("type", Str(a.actionType))] + Shows("target", a.actionTarget))),
      ("reason", Str(T(""))),
      ("trigger", Str(T("supersede"))),
      ("fix", Obj([("type", Str(T("noop")))])),
      ("timestamp", Str(Or(c.timestamp, c.now))),
      ("metadata", Dict(meta))]
  }

  /** meta is what the caller gave, with the hash of x under the name when x is given. */
  predicate Hashed(p: Platform, given: seq<Member>, meta: seq<Member>, name: string, x: Value) {
    if x.Null? then Get(meta, T(name)) == Get(given, T(name))
    else Get(meta, T(name)).Some? && HashOf(p, Get(meta, T(name)).value, x)
  }

  lemma RecordSpelled(pub: Text, c: Common, a: ActionArgs, meta: seq<Member>)
    ensures Dict(RecordShape(c, AgentOf(pub, c, a.agentName), Dict(ActionOf(a)), meta)) == Obj(RecordFields(pub, c, a, meta))
  {
    assert T("") == [];
    hide T;
    AgentSpelled(pub, c, a.agentName);
    PrincipalSpelled(c);
    hide AgentOf, AgentObj, Party, PrincipalObj;
    assert Dict(ActionOf(a)) == Obj([("type", Str(a.actionType))] + Shows("target", a.actionTarget));
    assert Dict([Member(TYPE, Str(NOOP))]) == Obj([("type", Str(T("noop")))]);
  }

  /** The whole record: these members in this order, the metadata with its two hashes, and a signature
      of the canonical bytes of the record with an empty signature text. */
  lemma RecordMade(p: Platform, seed: Bytes, c: Common, a: ActionArgs, v: Value) returns (meta: seq<Member>, data: Bytes)
    requires RecordOf(p, seed, c, a) == Some(v)
    ensures var pub := B64Url(p.publicKey(seed)); var fields := RecordFields(pub, c, a, meta); var kid := Or(c.kid, pub);
      && v == Obj(fields + [("signature", SignatureObj(kid, pub, B64Url(p.sign(seed, data))))])
      && CanonicalBytes(p.repr, Obj(fields + [("signature", SignatureObj(kid, pub, []))])) == Some(data)
    ensures Hashed(p, c.Meta(), meta, "inputHash", a.args) && Hashed(p, c.Meta(), meta, "outputHash", a.result)
    ensures forall k | k != T("inputHash") && k != T("outputHash") :: Get(meta, k) == Get(c.Meta(), k)
  {
    hide Signed, Get, RecordShape, GuardedDict, WithHash, AgentOf, B64Url, RecordFields, SignatureObj, CanonicalBytes;
    hide ContentBytes, Hash, HashOf, Obj, T;
    var pub := B64Url(p.publicKey(seed));
    meta := RecordMeta(p, c, a).value;
    var agent, action := AgentOf(pub, c, a.agentName), Dict(ActionOf(a));
    RecordAll(c, agent, action, meta);
    data := SignedMade(p, seed, c.KeyId(pub), RecordShape(c, agent, action, meta), v);
    RecordSpelled(pub, c, a, meta);
    ObjAdd(RecordFields(pub, c, a, meta), "signature", SignatureObj(Or(c.kid, pub), pub, []));
    ObjAdd(RecordFields(pub, c, a, meta), "signature", SignatureObj(Or(c.kid, pub), pub, B64Url(p.sign(seed, data))));
    RecordMetaFields(p, c, a);
    if !a.args.Null? { HashIsOf(p, a.args); }
    if !a.result.Null? { HashIsOf(p, a.result); }
  }

  // ---------- unknown ----------

  function UnknownFields(pub: Text, c: Common, u: UnknownArgs): seq<(string, Value)> {
    [ ("correctionId", Str(Or(c.correctionId, c.uuid))),
      ("agent", AgentObj(pub, c, u.agentName)),
      ("principal", PrincipalObj(c)),
      ("kind", Str(T("unknown"))),
      ("subject", Str(u.subject)),
      ("note", Str(Or(u.note, []))),
      ("timestamp", Str(Or(c.timestamp, c.now))),
      ("metadata", Dict(c.Meta()))]
  }

  lemma UnknownSpelled(pub: Text, c: Common, u: UnknownArgs)
    ensures Dict(UnknownShape(c, u, AgentOf(pub, c, u.agentName))) == Obj(UnknownFields(pub, c, u))
  {
    hide T;
    AgentSpelled(pub, c, u.agentName);
    PrincipalSpelled(c);
    hide AgentOf, AgentObj, Party, PrincipalObj;
  }

  /** The whole record of unknown. */
  lemma UnknownMade(p: Platform, seed: Bytes, c: Common, u: UnknownArgs, v: Value) returns (data: Bytes)
    requires UnknownOf(p, seed, c, u) == Some(v)
    ensures var pub := B64Url(p.publicKey(seed)); var fields := UnknownFields(pub, c, u); var kid := Or(c.kid, pub);
      && v == Obj(fields + [("signature", SignatureObj(kid, pub, B64Url(p.sign(seed, data))))])
      && CanonicalBytes(p.repr, Obj(fields + [("signature", SignatureObj(kid, pub, []))])) == Some(data)
  {
    hide Signed, Get, UnknownShape, AgentOf, B64Url, UnknownFields, SignatureObj, CanonicalBytes, Obj, T;
    var pub := B64Url(p.publicKey(seed));
    var agent := AgentOf(pub, c, u.agentName);
    UnknownAll(c, u, agent);
    data := SignedMade(p, seed, c.KeyId(pub), UnknownShape(c, u, agent), v);
    UnknownSpelled(pub, c, u);
    ObjAdd(UnknownFields(pub, c, u), "signature", SignatureObj(Or(c.kid, pub), pub, []));
    ObjAdd(UnknownFields(pub, c, u), "signature", SignatureObj(Or(c.kid, pub), pub, B64Url(p.sign(seed, data))));
  }

  // ---------- retract ----------

  /** What Python takes for false, or what is missing. */
  predicate Empty(o: Option<Value>) {
    o.None? || o.value in [Null, Bool(false), Str([]), Int(0), Dict([]), List([]), Tuple([])]
    || (o.value.Float? && o.value.x.Finite? && o.value.x.mag.mant == 0)
  }

  function PointerObj(p: Platform, prior: Value, data: Bytes): Value {
    var id := if Empty(Field(prior, T("correctionId"))) then Field(prior, T("receiptId")) else Field(prior, T("correctionId"));
    Obj([("receiptId", if id.Some? then id.value else Null),
         ("digest", Obj([("alg", Str(T("sha256"))), ("digest", Str(B64Url(p.sha256(data))))]))])
  }

  /** The type of the prior record's action, unknown where it names none. */
  function TypeOf(prior: Value): Value {
    var t := At(prior, ["action", "type"]);
    if t.Some? then t.value else Str(T("unknown"))
  }

  function SourceField(r: RetractArgs): seq<(string, Value)> {
    if r.sourceType.Some? && r.sourceReference.Some?
    then [("source", Obj([("type", Str(r.sourceType.value)), ("reference", Str(r.sourceReference.value))]))]
    else []
  }

  function FixObj(r: RetractArgs, hash: Option<Value>): Value {
    Obj([("type", Str(r.fixType))] + Shows("note", r.fixNote)
        + (if hash.Some? then [("contentHash", hash.value)] else []) + SourceField(r))
  }

  function RetractFields(p: Platform, pub: Text, prior: Value, bytes: Bytes, c: Common, r: RetractArgs, hash: Option<Value>)
    : seq<(string, Value)>
  {
    [ ("correctionId", Str(Or(c.correctionId, c.uuid))),
      ("agent", AgentObj(pub, c, None)),
      ("principal", PrincipalObj(c)),
      ("supersedes", PointerObj(p, prior, bytes)),
      ("action", Obj([("type", TypeOf(prior))])),
      ("reason", Str(r.reason)),
      ("trigger", Str(r.trigger)),
      ("fix", FixObj(r, hash)),
      ("timestamp", Str(Or(c.timestamp, c.now))),
      ("metadata", Dict(c.Meta()))]
  }

  lemma TruthyIsNotEmpty(o: Option<Value>)
    ensures Truthy(OrNull(o)) <==> !Empty(o)
  {
    if o.Some? {
      var falsy: seq<Value> := [Null, Bool(false), Str([]), Int(0), Dict([]), List([]), Tuple([])];
      assert falsy[0] == Null && falsy[1] == Bool(false) && falsy[2] == Str([]) && falsy[3] == Int(0);
      assert falsy[4] == Dict([]) && falsy[5] == List([]) && falsy[6] == Tuple([]);
    }
  }

  lemma PointerSpelled(p: Platform, prior: Value, data: Bytes)
    ensures Pointer(p, prior, data) == PointerObj(p, prior, data)
  {
    hide T, B64Url, Truthy, Empty, Field, Hash;
    TruthyIsNotEmpty(Field(prior, CORRECTION_ID));
    HashSpelled(p, data);
  }

  lemma TypeIsPrior(prior: Value)
    requires PriorAction(prior).Some?
    ensures PriorAction(prior).value == TypeOf(prior)
  {
    hide T, Get;
    AtTwo(prior, "action", "type");
  }

  lemma FixSpelled(p: Platform, r: RetractArgs) returns (hash: Option<Value>)
    requires FixOf(p, r).Some?
    ensures Dict(FixOf(p, r).value) == FixObj(r, hash)
    ensures if r.corrected.Null? then hash.None? else hash.Some? && HashOf(p, hash.value, r.corrected)
  {
    hide T, ContentBytes, HashOf, Hash, GuardedDict, Put;
    OptionalNames();
    if r.corrected.Null? {
      hash := None;
    } else {
      HashIsOf(p, r.corrected);
      hash := Some(Hash(p, ContentBytes(p, r.corrected).value));
      Append([Member(TYPE, Str(r.fixType))] + Optional(NOTE, r.fixNote), CONTENT_HASH, hash.value);
    }
    var start := [("type", Str(r.fixType))] + Shows("note", r.fixNote);
    var mid := start + (if hash.Some? then [("contentHash", hash.value)] else []);
    assert Obj(start).members == [Member(TYPE, Str(r.fixType))] + Optional(NOTE, r.fixNote);
    assert FixOf(p, r).value == Obj(mid).members + SourceOf(r);
    SourceSpelled(r);
    hide Obj, SourceField, SourceOf;
    ObjConcat(mid, SourceField(r));
  }

  lemma SourceSpelled(r: RetractArgs)
    ensures Obj(SourceField(r)).members == SourceOf(r)
  {
    hide T;
    if r.sourceType.Some? && r.sourceReference.Some? {
      var ps := [("type", Str(r.sourceType.value)), ("reference", Str(r.sourceReference.value))];
      assert Obj(ps) == Party(TYPE, r.sourceType.value, REFERENCE, r.sourceReference.value);
    }
  }

  lemma ObjConcat(a: seq<(string, Value)>, b: seq<(string, Value)>)
    ensures Obj(a + b) == Dict(Obj(a).members + Obj(b).members)
  {
    hide T;
  }

  lemma RetractSpelled(p: Platform, pub: Text, prior: Value, bytes: Bytes, c: Common, r: RetractArgs, action: Value, fix: Value,
                       hash: Option<Value>)
    requires action == TypeOf(prior) && fix == FixObj(r, hash) && fix.Dict?
    ensures Dict(RetractShape(pub, c, r, Pointer(p, prior, bytes), action, fix.members))
         == Obj(RetractFields(p, pub, prior, bytes, c, r, hash))
  {
    hide T;
    AgentSpelled(pub, c, None);
    PrincipalSpelled(c);
    PointerSpelled(p, prior, bytes);
    hide AgentOf, AgentObj, Party, PrincipalObj, Pointer, PointerObj, TypeOf, FixObj;
    assert Dict([Member(TYPE, action)]) == Obj([("type", action)]);
  }

  /** The whole record of retract: what it points at, the action type it inherits and the hash of the
      corrected content. */
  lemma RetractMade(p: Platform, seed: Bytes, prior: Value, c: Common, r: RetractArgs, v: Value)
    returns (bytes: Bytes, hash: Option<Value>, data: Bytes)
    requires RetractOf(p, seed, prior, c, r) == Some(v)
    ensures CanonicalBytes(p.repr, prior) == Some(bytes)
    ensures if r.corrected.Null? then hash.None? else hash.Some? && HashOf(p, hash.value, r.corrected)
    ensures var pub := B64Url(p.publicKey(seed)); var kid := Or(c.kid, pub);
      var fields := RetractFields(p, pub, prior, bytes, c, r, hash);
      && v == Obj(fields + [("signature", SignatureObj(kid, pub, B64Url(p.sign(seed, data))))])
      && CanonicalBytes(p.repr, Obj(fields + [("signature", SignatureObj(kid, pub, []))])) == Some(data)
  {
    hide Signed, Get, RetractShape, AgentOf, B64Url, RetractFields, SignatureObj, CanonicalBytes, Obj, T, HashOf, FixOf;
    hide PriorAction, TypeOf, FixObj, Pointer, ChoicesOk;
    var pub := B64Url(p.publicKey(seed));
    bytes := CanonicalBytes(p.repr, prior).value;
    var action, fix := PriorAction(prior).value, FixOf(p, r).value;
    hash := FixSpelled(p, r);
    TypeIsPrior(prior);
    RetractAll(pub, c, r, Pointer(p, prior, bytes), action, fix);
    data := SignedMade(p, seed, c.KeyId(pub), RetractShape(pub, c, r, Pointer(p, prior, bytes), action, fix), v);
    RetractSpelled(p, pub, prior, bytes, c, r, action, Dict(fix), hash);
    var fields := RetractFields(p, pub, prior, bytes, c, r, hash);
    ObjAdd(fields, "signature", SignatureObj(Or(c.kid, pub), pub, []));
    ObjAdd(fields, "signature", SignatureObj(Or(c.kid, pub), pub, B64Url(p.sign(seed, data))));
  }

  // ---------- what the hashes say ----------

  /** The hashes of a record, by name. */
  lemma RecordHashes(p: Platform, seed: Bytes, c: Common, a: ActionArgs, v: Value)
    requires RecordOf(p, seed, c, a) == Some(v)
    ensures !a.args.Null? ==>
      At(v, ["metadata", "inputHash"]).Some? && HashOf(p, At(v, ["metadata", "inputHash"]).value, a.args)
    ensures !a.result.Null? ==>
      At(v, ["metadata", "outputHash"]).Some? && HashOf(p, At(v, ["metadata", "outputHash"]).value, a.result)
  {
    hide Get, ContentBytes, Hash, HashOf, T, RecordMeta, RecordOf, At;
    RecordCarries(p, seed, c, a, v);
    RecordMetaFields(p, c, a);
    AtTwo(v, "metadata", "inputHash");
    AtTwo(v, "metadata", "outputHash");
    if !a.args.Null? { HashIsOf(p, a.args); }
    if !a.result.Null? { HashIsOf(p, a.result); }
  }

  /** The hash of a correction's content, by name. */
  lemma RetractHash(p: Platform, seed: Bytes, prior: Value, c: Common, r: RetractArgs, v: Value)
    requires RetractOf(p, seed, prior, c, r) == Some(v)
    ensures if r.corrected.Null? then At(v, ["fix", "contentHash"]).None?
      else At(v, ["fix", "contentHash"]).Some? && HashOf(p, At(v, ["fix", "contentHash"]).value, r.corrected)
  {
    hide Get, ContentBytes, Hash, HashOf, T, FixOf, RetractOf, At;
    RetractCarries(p, seed, prior, c, r, v);
    FixFields(p, r);
    AtTwo(v, "fix", "contentHash");
    if !r.corrected.Null? { HashIsOf(p, r.corrected); }
  }

  /** Dictionaries that differ in nothing the canonical form keeps have one hash; dictionaries with one
      hash differ in nothing it keeps, or their canonical bytes clash. */
  lemma DictHashes(p: Platform, h: Value, x: Value, k: Value, y: Value)
    requires ReprLaw(p.repr) && x.Dict? && y.Dict? && Proper(x) && Proper(y) && HashOf(p, h, x) && HashOf(p, k, y)
    ensures Similar(x, y) ==> h == k
    ensures h == k ==> Similar(x, y) || Collide(p, x, y)
  {
    hide Normalise, Proper, CanonicalBytes, Hash, B64Url, T, Obj;
    BytesExist(p.repr, x);
    BytesExist(p.repr, y);
    BytesInjective(p.repr, x, y);
    if h == k {
      var a, b := CanonicalBytes(p.repr, x).value, CanonicalBytes(p.repr, y).value;
      HashSpelled(p, a);
      HashSpelled(p, b);
      HashFields(p, a);
      HashFields(p, b);
      B64UrlInjective(p.sha256(a), p.sha256(b));
    }
  }

  // ---------- checkpoints ----------

  /** The digest text of a record. */
  function DigestText(p: Platform, v: Value): Text
    requires CanonicalBytes(p.repr, v).Some?
  {
    B64Url(p.sha256(CanonicalBytes(p.repr, v).value))
  }

  /** The checkpoint of a chain: its length and the digests of its first and last records. */
  lemma CheckpointMade(p: Platform, rs: seq<Value>, cp: Value)
    requires Checkpoint(p, rs) == Some(cp)
    ensures ChainOk(p, rs, None) && CanonicalBytes(p.repr, rs[0]).Some? && CanonicalBytes(p.repr, rs[|rs| - 1]).Some?
    ensures cp == Obj([("length", Int(|rs|)), ("genesis", Str(DigestText(p, rs[0]))), ("head", Str(DigestText(p, rs[|rs| - 1])))])
  {
    hide ChainOk, CanonicalBytes, B64Url, T;
    NonEmptyChain(p, rs, None);
  }

  /** A checkpoint is met by a chain under a given key, exactly when it has those three members, in any
      order, and no others. */
  lemma CheckpointMet(p: Platform, rs: seq<Value>, key: Option<Bytes>, cp: Value)
    requires ChainOk(p, rs, key)
    ensures rs != [] && CanonicalBytes(p.repr, rs[0]).Some? && CanonicalBytes(p.repr, rs[|rs| - 1]).Some?
    ensures Accepted(p, List(rs), key, Some(cp)) <==>
      && key.Some? && cp.Dict? && |cp.members| == 3 && At(cp, ["length"]) == Some(Int(|rs|))
      && At(cp, ["genesis"]) == Some(Str(DigestText(p, rs[0])))
      && At(cp, ["head"]) == Some(Str(DigestText(p, rs[|rs| - 1])))
  {
    NonEmptyChain(p, rs, key);
    VerifiedFacts(p, rs[0], key);
    VerifiedFacts(p, rs[|rs| - 1], key);
    hide ChainOk, CanonicalBytes, B64Url, T, At, Get, Verify;
    AtOne(cp, "length");
    AtOne(cp, "genesis");
    AtOne(cp, "head");
  }

  // ---------- how an action's type travels ----------

  lemma RetractInherits(p: Platform, seed: Bytes, prior: Value, c: Common, r: RetractArgs, v: Value)
    requires RetractOf(p, seed, prior, c, r) == Some(v)
    ensures At(v, ["action", "type"]) == Some(TypeOf(prior))
  {
    hide Signed, Get, RetractShape, B64Url, CanonicalBytes, T, FixOf, PriorAction, Pointer, ChoicesOk, TypeOf, At;
    var pub := B64Url(p.publicKey(seed));
    var data, action, fix := CanonicalBytes(p.repr, prior).value, PriorAction(prior).value, FixOf(p, r).value;
    RetractAll(pub, c, r, Pointer(p, prior, data), action, fix);
    SignedFields(p, seed, c.KeyId(pub), RetractShape(pub, c, r, Pointer(p, prior, data), action, fix), v);
    NamesApart();
    TypeIsPrior(prior);
    AtTwo(v, "action", "type");
    OneField(TYPE, action);
  }

  lemma OneField(k: Text, x: Value)
    ensures Field(Dict([Member(k, x)]), k) == Some(x)
  {}

  /** Every correction of a run carries the type of the action that opened it, and unknown where a
      declaration of uncertainty did. */
  lemma {:induction false} RunInherits(p: Platform, seed: Bytes, o: Opening, steps: seq<Amendment>, rs: seq<Value>)
    requires Run(p, seed, o, steps) == Some(rs)
    ensures |rs| == |steps| + 1
    ensures forall i | 0 <= i < |rs| :: TypeOf(rs[i]) == Str(if o.Acted? then o.a.actionType else T("unknown"))
    ensures forall i | 0 < i < |rs| :: At(rs[i], ["action", "type"]).Some?
    ensures At(rs[0], ["action", "type"]).Some? <==> o.Acted?
  {
    hide RecordOf, UnknownOf, RetractOf, TypeOf, At, T;
    if steps == [] {
      OpenInherits(p, seed, o, rs[0]);
    } else {
      var n := |steps| - 1;
      var ws := Run(p, seed, o, steps[..n]).value;
      RunInherits(p, seed, o, steps[..n], ws);
      RetractInherits(p, seed, ws[n], steps[n].c, steps[n].r, rs[n + 1]);
      TypeIsAt(rs[n + 1]);
    }
  }

  lemma TypeIsAt(v: Value)
    ensures At(v, ["action", "type"]).Some? ==> TypeOf(v) == At(v, ["action", "type"]).value
  {}

  lemma OpenInherits(p: Platform, seed: Bytes, o: Opening, v: Value)
    requires Open(p, seed, o) == Some(v)
    ensures TypeOf(v) == Str(if o.Acted? then o.a.actionType else T("unknown"))
    ensures At(v, ["action", "type"]).Some? <==> o.Acted?
  {
    hide RecordOf, Get, T, At, Signed, UnknownShape, B64Url, AgentOf;
    AtTwo(v, "action", "type");
    match o
    case Acted(c, a) =>
      RecordCarries(p, seed, c, a, v);
      ActionFields(a);
    case Unsure(c, u) =>
      var pub := B64Url(p.publicKey(seed));
      UnknownAll(c, u, AgentOf(pub, c, u.agentName));
      SignedFields(p, seed, c.KeyId(pub), UnknownShape(c, u, AgentOf(pub, c, u.agentName)), v);
      NamesApart();
  }
}
