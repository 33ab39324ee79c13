/** record, retract and unknown as the program runs them: a dictionary filled in place, then signed. */
module Constructors {
  import opened Wrappers
  import opened Text
  import opened Json
  import opened NormalForm
  import opened Render
  import opened Base64
  import opened Records
  import opened Builders

  lemma RecordKeys(c: Common, agent: Value, action: Value, meta: seq<Member>)
    ensures UniqueKeys(RecordShape(c, agent, action, meta))
  {
    NameShapes();
  }

  lemma RetractKeys(pub: Text, c: Common, r: RetractArgs, pointer: Value, action: Value, fix: seq<Member>)
    ensures UniqueKeys(RetractShape(pub, c, r, pointer, action, fix))
  {
    hide AgentOf, Party;
    NameShapes();
  }

  lemma UnknownKeys(c: Common, u: UnknownArgs, agent: Value)
    ensures UniqueKeys(UnknownShape(c, u, agent))
  {
    NameShapes();
  }

  /** Writing into the dictionary at position i of a dictionary. */
  lemma FillAt(ms: seq<Member>, i: nat, k: Text, v: Value)
    requires UniqueKeys(ms) && i < |ms| && ms[i].value.Dict?
    ensures Get(ms, ms[i].key) == Some(ms[i].value)
    ensures var inner := Dict(Put(ms[i].value.members, k, v));
      Put(ms, ms[i].key, inner) == ms[i := Member(ms[i].key, inner)]
  {
    GetUnique(ms, ms[i]);
    PutAt(ms, i, Dict(Put(ms[i].value.members, k, v)));
  }

  /** d[k] = v on a short literal that lacks k. */
  lemma Append(ms: seq<Member>, k: Text, v: Value)
    requires forall i | 0 <= i < |ms| :: ms[i].key != k
    ensures Put(ms, k, v) == ms + [Member(k, v)]
  {
  }

  predicate Given(o: Option<Text>) { o.Some? && o.value != [] }

  function ActionOf(a: ActionArgs): seq<Member> {
    [Member(TYPE, Str(a.actionType))] + Optional(TARGET, a.actionTarget)
  }

  /** The dictionary of record before its hashes. */
  method Begin(pub: Text, c: Common, a: ActionArgs) returns (body: Draft)
    ensures fresh(body)
    ensures body.members == RecordShape(c, AgentOf(pub, c, a.agentName), Dict(ActionOf(a)), c.Meta())
  {
    hide Put, Get, UniqueKeys, RecordShape;
    OptionalNames();
    var agent := [Member(ID, Str(c.agentId)), Member(PUBLIC_KEY, Str(pub))];
    var action := [Member(TYPE, Str(a.actionType))];
    RecordKeys(c, Dict(agent), Dict(action), c.Meta());
    FromUniquePairs(RecordShape(c, Dict(agent), Dict(action), c.Meta()));
    body := new Draft(RecordShape(c, Dict(agent), Dict(action), c.Meta()));
    if Given(a.agentName) {
      FillAgent(c, agent, Dict(action), c.Meta(), NAME, Str(a.agentName.value));
      Append(agent, NAME, Str(a.agentName.value));
      body.SetIn(AGENT, NAME, Str(a.agentName.value));
    }
    assert AgentOf(pub, c, a.agentName) == Dict(agent + Optional(NAME, a.agentName));
    assert !Given(a.agentName) ==> agent + Optional(NAME, a.agentName) == agent;
    assert body.members == RecordShape(c, AgentOf(pub, c, a.agentName), Dict(action), c.Meta());
    if Given(a.actionTarget) {
      FillAction(c, AgentOf(pub, c, a.agentName), action, c.Meta(), TARGET, Str(a.actionTarget.value));
      Append(action, TARGET, Str(a.actionTarget.value));
      body.SetIn(ACTION, TARGET, Str(a.actionTarget.value));
    }
    assert ActionOf(a) == action + Optional(TARGET, a.actionTarget);
    assert !Given(a.actionTarget) ==> ActionOf(a) == action;
  }

  lemma OptionalNames()
    ensures NAME != ID && NAME != PUBLIC_KEY && TARGET != TYPE && NOTE != TYPE
    ensures CONTENT_HASH != TYPE && CONTENT_HASH != NOTE && SOURCE != TYPE && SOURCE != NOTE && SOURCE != CONTENT_HASH
  {
    NameShapes();
  }

  /** Store the hash of one argument in the metadata; false is an exception. */
  method StoreHash(p: Platform, body: Draft, ghost c: Common, ghost agent: Value, ghost action: Value,
                   ghost meta: seq<Member>, k: Text, v: Value)
    returns (ok: bool)
    requires body.members == RecordShape(c, agent, action, meta)
    modifies body
    ensures ok == WithHash(p, meta, k, v).Some?
    ensures ok ==> body.members == RecordShape(c, agent, action, WithHash(p, meta, k, v).value)
  {
    hide Put, Get, RecordShape, ContentBytes;
    if v.Null? {
      return true;
    }
    var data := ContentBytes(p, v);
    if data.None? {
      return false;
    }
    FillMeta(c, agent, action, meta, k, Hash(p, data.value));
    body.SetIn(METADATA, k, Hash(p, data.value));
    return true;
  }

  method Record(p: Platform, seed: Bytes, c: Common, a: ActionArgs) returns (r: Option<Value>)
    ensures r == RecordOf(p, seed, c, a)
  {
    hide Put, Get, Signed, Guarded, RecordShape, AgentOf;
    var pub := B64Url(p.publicKey(seed));
    ghost var agent, action := AgentOf(pub, c, a.agentName), Dict(ActionOf(a));
    var body := Begin(pub, c, a);
    if !GuardedDict(a.args) || !GuardedDict(a.result) {
      return None;
    }
    var ok := StoreHash(p, body, c, agent, action, c.Meta(), INPUT_HASH, a.args);
    if !ok {
      return None;
    }
    ok := StoreHash(p, body, c, agent, action, WithHash(p, c.Meta(), INPUT_HASH, a.args).value, OUTPUT_HASH, a.result);
    if !ok {
      return None;
    }
    r := body.Sign(p, seed, c.KeyId(pub));
  }

  lemma FillAgent(c: Common, agent: seq<Member>, action: Value, meta: seq<Member>, k: Text, v: Value)
    ensures var ms := RecordShape(c, Dict(agent), action, meta);
      && Get(ms, AGENT) == Some(Dict(agent))
      && Put(ms, AGENT, Dict(Put(agent, k, v))) == RecordShape(c, Dict(Put(agent, k, v)), action, meta)
  {
    hide Put, Get, UniqueKeys, Party;
    RecordKeys(c, Dict(agent), action, meta);
    FillAt(RecordShape(c, Dict(agent), action, meta), 1, k, v);
  }

  lemma FillAction(c: Common, agent: Value, action: seq<Member>, meta: seq<Member>, k: Text, v: Value)
    ensures var ms := RecordShape(c, agent, Dict(action), meta);
      && Get(ms, ACTION) == Some(Dict(action))
      && Put(ms, ACTION, Dict(Put(action, k, v))) == RecordShape(c, agent, Dict(Put(action, k, v)), meta)
  {
    hide Put, Get, UniqueKeys, Party;
    RecordKeys(c, agent, Dict(action), meta);
    FillAt(RecordShape(c, agent, Dict(action), meta), 3, k, v);
  }

  lemma FillMeta(c: Common, agent: Value, action: Value, meta: seq<Member>, k: Text, v: Value)
    ensures var ms := RecordShape(c, agent, action, meta);
      && Get(ms, METADATA) == Some(Dict(meta))
      && Put(ms, METADATA, Dict(Put(meta, k, v))) == RecordShape(c, agent, action, Put(meta, k, v))
  {
    hide Put, Get, UniqueKeys, Party;
    RecordKeys(c, agent, action, meta);
    FillAt(RecordShape(c, agent, action, meta), 8, k, v);
  }

  method Unknown(p: Platform, seed: Bytes, c: Common, u: UnknownArgs) returns (r: Option<Value>)
    ensures r == UnknownOf(p, seed, c, u)
  {
    hide Put, Get, UniqueKeys, Signed, UnknownShape;
    OptionalNames();
    var pub := B64Url(p.publicKey(seed));
    var agent := [Member(ID, Str(c.agentId)), Member(PUBLIC_KEY, Str(pub))];
    UnknownKeys(c, u, Dict(agent));
    FromUniquePairs(UnknownShape(c, u, Dict(agent)));
    var body := new Draft(UnknownShape(c, u, Dict(agent)));
    if Given(u.agentName) {
      FillUnknown(c, u, agent, NAME, Str(u.agentName.value));
      Append(agent, NAME, Str(u.agentName.value));
      body.SetIn(AGENT, NAME, Str(u.agentName.value));
    }
    assert AgentOf(pub, c, u.agentName) == Dict(agent + Optional(NAME, u.agentName));
    assert !Given(u.agentName) ==> agent + Optional(NAME, u.agentName) == agent;
    r := body.Sign(p, seed, c.KeyId(pub));
  }

  lemma FillUnknown(c: Common, u: UnknownArgs, agent: seq<Member>, k: Text, v: Value)
    ensures var ms := UnknownShape(c, u, Dict(agent));
      && Get(ms, AGENT) == Some(Dict(agent))
      && Put(ms, AGENT, Dict(Put(agent, k, v))) == UnknownShape(c, u, Dict(Put(agent, k, v)))
  {
    hide Put, Get, UniqueKeys, Party;
    UnknownKeys(c, u, Dict(agent));
    FillAt(UnknownShape(c, u, Dict(agent)), 1, k, v);
  }

  /** Fill in what kind of fix it was; false is an exception. */
  method FillFix(p: Platform, body: Draft, pub: Text, c: Common, r: RetractArgs, pointer: Value, action: Value)
    returns (ok: bool)
    requires body.members == RetractShape(pub, c, r, pointer, action, [Member(TYPE, Str(r.fixType))])
    requires r.sourceType.None? <==> r.sourceReference.None?
    modifies body
    ensures ok == FixOf(p, r).Some?
    ensures ok ==> body.members == RetractShape(pub, c, r, pointer, action, FixOf(p, r).value)
  {
    hide Put, Get, Guarded, ContentBytes, RetractShape, Hash, Party;
    OptionalNames();
    ghost var fix := [Member(TYPE, Str(r.fixType))];
    if Given(r.fixNote) {
      FillRetract(pub, c, r, pointer, action, fix, NOTE, Str(r.fixNote.value));
      Append(fix, NOTE, Str(r.fixNote.value));
      body.SetIn(FIX, NOTE, Str(r.fixNote.value));
      fix := fix + [Member(NOTE, Str(r.fixNote.value))];
    }
    assert fix == [Member(TYPE, Str(r.fixType))] + Optional(NOTE, r.fixNote);
    ghost var start := fix;
    if !GuardedDict(r.corrected) {
      return false;
    }
    if !r.corrected.Null? {
      var content := ContentBytes(p, r.corrected);
      if content.None? {
        return false;
      }
      FillRetract(pub, c, r, pointer, action, fix, CONTENT_HASH, Hash(p, content.value));
      Append(fix, CONTENT_HASH, Hash(p, content.value));
      body.SetIn(FIX, CONTENT_HASH, Hash(p, content.value));
      fix := fix + [Member(CONTENT_HASH, Hash(p, content.value))];
    }
    assert WithHash(p, start, CONTENT_HASH, r.corrected) == Some(fix);
    if r.sourceType.Some? {
      var source := Party(TYPE, r.sourceType.value, REFERENCE, r.sourceReference.value);
      FillRetract(pub, c, r, pointer, action, fix, SOURCE, source);
      Append(fix, SOURCE, source);
      body.SetIn(FIX, SOURCE, source);
    }
    assert FixOf(p, r) == Some(fix + SourceOf(r));
    assert r.sourceType.None? ==> fix + SourceOf(r) == fix;
    return true;
  }

  method Retract(p: Platform, seed: Bytes, prior: Value, c: Common, r: RetractArgs) returns (v: Option<Value>)
    ensures v == RetractOf(p, seed, prior, c, r)
  {
    hide Put, Get, UniqueKeys, Signed, CanonicalBytes, RetractShape, PriorAction, Pointer, FixOf;
    if r.trigger !in TRIGGERS || r.fixType !in FIX_TYPES {
      return None;
    }
    if r.sourceType.Some? && r.sourceType.value !in SOURCE_TYPES {
      return None;
    }
    if r.sourceType.None? != r.sourceReference.None? {
      return None;
    }
    var pub := B64Url(p.publicKey(seed));
    var data := CanonicalBytes(p.repr, prior);
    if data.None? || !prior.Dict? {
      return None;
    }
    var action := PriorAction(prior);
    if action.None? {
      return None;
    }
    var pointer := Pointer(p, prior, data.value);
    var fix := [Member(TYPE, Str(r.fixType))];
    RetractKeys(pub, c, r, pointer, action.value, fix);
    FromUniquePairs(RetractShape(pub, c, r, pointer, action.value, fix));
    var body := new Draft(RetractShape(pub, c, r, pointer, action.value, fix));
    var ok := FillFix(p, body, pub, c, r, pointer, action.value);
    if !ok {
      return None;
    }
    v := body.Sign(p, seed, c.KeyId(pub));
  }

  lemma FillRetract(pub: Text, c: Common, r: RetractArgs, pointer: Value, action: Value, fix: seq<Member>, k: Text, v: Value)
    ensures var ms := RetractShape(pub, c, r, pointer, action, fix);
      && Get(ms, FIX) == Some(Dict(fix))
      && Put(ms, FIX, Dict(Put(fix, k, v))) == RetractShape(pub, c, r, pointer, action, Put(fix, k, v))
  {
    hide Put, Get, UniqueKeys, AgentOf, Party;
    var ms := RetractShape(pub, c, r, pointer, action, fix);
    RetractKeys(pub, c, r, pointer, action, fix);
    FillAt(ms, 7, k, v);
  }
}
