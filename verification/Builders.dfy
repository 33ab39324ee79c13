/** The constructors of signed records: record, retract, unknown and the signing step they share. */
module Builders {
  import opened Wrappers
  import opened Text
  import opened Numbers
  import opened Json
  import opened NormalForm
  import opened Render
  import opened Base64
  import opened Records

  const INPUT_HASH := T("inputHash")
  const OUTPUT_HASH := T("outputHash")
  const SUPERSEDE := T("supersede")
  const NOOP := T("noop")

  /** Lengths and first letters tell apart all names that share a dictionary. */
  lemma NameShapes()
    ensures |CORRECTION_ID| == 12 && |AGENT| == 5 && |PRINCIPAL| == 9 && PRINCIPAL[0] == 'p' as int
    ensures |SUPERSEDES| == 10 && |ACTION| == 6 && ACTION[0] == 'a' as int && |REASON| == 6 && REASON[0] == 'r' as int
    ensures |TRIGGER| == 7 && TRIGGER[0] == 't' as int && |FIX| == 3 && |TIMESTAMP| == 9 && TIMESTAMP[0] == 't' as int
    ensures |METADATA| == 8 && |SIGNATURE| == 9 && SIGNATURE[0] == 's' as int
    ensures |KIND| == 4 && KIND[0] == 'k' as int && |SUBJECT| == 7 && SUBJECT[0] == 's' as int
    ensures |NOTE| == 4 && NOTE[0] == 'n' as int && |ID| == 2 && |NAME| == 4 && NAME[0] == 'n' as int
    ensures |TYPE| == 4 && TYPE[0] == 't' as int && |TARGET| == 6 && TARGET[0] == 't' as int
    ensures |PUBLIC_KEY| == 9 && PUBLIC_KEY[0] == 'p' as int && |RECEIPT_ID| == 9 && RECEIPT_ID[0] == 'r' as int
    ensures |DIGEST| == 6 && DIGEST[0] == 'd' as int && |ALG| == 3 && ALG[0] == 'a' as int
    ensures |KID| == 3 && KID[0] == 'k' as int && |CANONICALIZATION| == 16 && |SIG| == 3 && SIG[0] == 's' as int
    ensures |CONTENT_HASH| == 11 && |SOURCE| == 6 && SOURCE[0] == 's' as int
    ensures |REFERENCE| == 9 && REFERENCE[0] == 'r' as int
  {}

  // ---------- arguments ----------

  /** What every constructor takes; Null stands for an omitted argument of any type. */
  datatype Common = Common(
    agentId: Text, principalId: Text, principalType: Text, kid: Option<Text>,
    metadata: Option<seq<Member>>, correctionId: Option<Text>, timestamp: Option<Text>,
    uuid: Text, now: Text)
  {
    function Id(): Text { if correctionId.Some? then correctionId.value else uuid }
    function Time(): Text { if timestamp.Some? then timestamp.value else now }
    function Meta(): seq<Member> { if metadata.Some? then metadata.value else [] }
    function KeyId(pub: Text): Text { if kid.Some? then kid.value else pub }
  }

  datatype ActionArgs = ActionArgs(
    agentName: Option<Text>, actionType: Text, actionTarget: Option<Text>, args: Value, result: Value)

  datatype UnknownArgs = UnknownArgs(agentName: Option<Text>, subject: Text, note: Option<Text>)

  datatype RetractArgs = RetractArgs(
    reason: Text, trigger: Text, fixType: Text, fixNote: Option<Text>, corrected: Value,
    sourceType: Option<Text>, sourceReference: Option<Text>)

  // ---------- bodies ----------

  /** A member written only when the argument is given and not empty. */
  function Optional(k: Text, o: Option<Text>): seq<Member> {
    if o.Some? && o.value != [] then [Member(k, Str(o.value))] else []
  }

  function Hash(p: Platform, data: Bytes): Value {
    Dict([Member(ALG, Str(SHA256)), Member(DIGEST, Str(B64Url(p.sha256(data))))])
  }

  /** What is hashed in place of a value: canonical bytes of a dictionary, str(x) of anything else. */
  function ContentBytes(p: Platform, v: Value): Option<Bytes> {
    if v.Dict? then CanonicalBytes(p.repr, v) else p.encodeStr(v)
  }

  function Party(a: Text, x: Text, b: Text, y: Text): Value { Dict([Member(a, Str(x)), Member(b, Str(y))]) }

  function AgentOf(pub: Text, c: Common, name: Option<Text>): Value {
    Dict([Member(ID, Str(c.agentId)), Member(PUBLIC_KEY, Str(pub))] + Optional(NAME, name))
  }

  predicate GuardedDict(v: Value) { v.Dict? ==> Guarded(v) }

  /** ms with the hash of a value under k, when the value is given. */
  function WithHash(p: Platform, ms: seq<Member>, k: Text, v: Value): Option<seq<Member>> {
    if v.Null? then Some(ms)
    else
      var data :- ContentBytes(p, v);
      Some(Put(ms, k, Hash(p, data)))
  }

  /** record's dictionary around the values it fills in place. */
  function RecordShape(c: Common, agent: Value, action: Value, meta: seq<Member>): seq<Member> {
    [ Member(CORRECTION_ID, Str(c.Id())),
      Member(AGENT, agent),
      Member(PRINCIPAL, Party(ID, c.principalId, TYPE, c.principalType)),
      Member(ACTION, action),
      Member(REASON, Str([])),
      Member(TRIGGER, Str(SUPERSEDE)),
      Member(FIX, Dict([Member(TYPE, Str(NOOP))])),
      Member(TIMESTAMP, Str(c.Time())),
      Member(METADATA, Dict(meta))]
  }

  function RecordBody(p: Platform, pub: Text, c: Common, a: ActionArgs): Option<seq<Member>> {
    if !GuardedDict(a.args) || !GuardedDict(a.result) then None
    else
      var m1 :- WithHash(p, c.Meta(), INPUT_HASH, a.args);
      var m2 :- WithHash(p, m1, OUTPUT_HASH, a.result);
      Some(RecordShape(c, AgentOf(pub, c, a.agentName),
                       Dict([Member(TYPE, Str(a.actionType))] + Optional(TARGET, a.actionTarget)), m2))
  }

  /** bool(v). */
  predicate Truthy(v: Value) {
    match v
    case Null => false
    case Bool(b) => b
    case Str(s) => s != []
    case Int(n) => n != 0
    case Float(x) => !(x.Finite? && x.mag.mant == 0)
    case Dict(ms) => ms != []
    case List(xs) => xs != []
    case Tuple(xs) => xs != []
    case Opaque => true
  }

  /** prior.get("correctionId") or prior.get("receiptId"). */
  function PriorId(prior: Value): Value {
    if Truthy(OrNull(Field(prior, CORRECTION_ID))) then OrNull(Field(prior, CORRECTION_ID))
    else OrNull(Field(prior, RECEIPT_ID))
  }

  /** prior.get("action", {}).get("type", "unknown"). */
  function PriorAction(prior: Value): Option<Value> {
    if !Has(prior, ACTION) then Some(Str(UNKNOWN))
    else if !Field(prior, ACTION).value.Dict? then None
    else if !Has(Field(prior, ACTION).value, TYPE) then Some(Str(UNKNOWN))
    else Field(Field(prior, ACTION).value, TYPE)
  }

  predicate ChoicesOk(r: RetractArgs) {
    && r.trigger in TRIGGERS && r.fixType in FIX_TYPES
    && (r.sourceType.Some? ==> r.sourceType.value in SOURCE_TYPES)
    && (r.sourceType.None? <==> r.sourceReference.None?)
  }

  function SourceOf(r: RetractArgs): seq<Member> {
    if r.sourceType.Some? && r.sourceReference.Some?
    then [Member(SOURCE, Party(TYPE, r.sourceType.value, REFERENCE, r.sourceReference.value))]
    else []
  }

  function FixOf(p: Platform, r: RetractArgs): Option<seq<Member>> {
    if !GuardedDict(r.corrected) then None
    else
      var ms :- WithHash(p, [Member(TYPE, Str(r.fixType))] + Optional(NOTE, r.fixNote), CONTENT_HASH, r.corrected);
      Some(ms + SourceOf(r))
  }

  /** retract's dictionary around the values it fills in place. */
  function RetractShape(pub: Text, c: Common, r: RetractArgs, pointer: Value, action: Value, fix: seq<Member>): seq<Member> {
    [ Member(CORRECTION_ID, Str(c.Id())),
      Member(AGENT, AgentOf(pub, c, None)),
      Member(PRINCIPAL, Party(ID, c.principalId, TYPE, c.principalType)),
      Member(SUPERSEDES, pointer),
      Member(ACTION, Dict([Member(TYPE, action)])),
      Member(REASON, Str(r.reason)),
      Member(TRIGGER, Str(r.trigger)),
      Member(FIX, Dict(fix)),
      Member(TIMESTAMP, Str(c.Time())),
      Member(METADATA, Dict(c.Meta()))]
  }

  function Pointer(p: Platform, prior: Value, data: Bytes): Value {
    Dict([Member(RECEIPT_ID, PriorId(prior)), Member(DIGEST, Hash(p, data))])
  }

  function RetractBody(p: Platform, pub: Text, prior: Value, c: Common, r: RetractArgs): Option<seq<Member>> {
    if !ChoicesOk(r) || !prior.Dict? then None
    else
      var data :- CanonicalBytes(p.repr, prior);
      var action :- PriorAction(prior);
      var fix :- FixOf(p, r);
      Some(RetractShape(pub, c, r, Pointer(p, prior, data), action, fix))
  }

  function UnknownShape(c: Common, u: UnknownArgs, agent: Value): seq<Member> {
    [ Member(CORRECTION_ID, Str(c.Id())),
      Member(AGENT, agent),
      Member(PRINCIPAL, Party(ID, c.principalId, TYPE, c.principalType)),
      Member(KIND, Str(UNKNOWN)),
      Member(SUBJECT, Str(u.subject)),
      Member(NOTE, Str(if u.note.Some? then u.note.value else [])),
      Member(TIMESTAMP, Str(c.Time())),
      Member(METADATA, Dict(c.Meta()))]
  }

  function UnknownBody(pub: Text, c: Common, u: UnknownArgs): seq<Member> {
    UnknownShape(c, u, AgentOf(pub, c, u.agentName))
  }

  // ---------- signing ----------

  function SignatureMeta(pub: Text, kid: Text): seq<Member> {
    [ Member(ALG, Str(ED25519)),
      Member(KID, Str(kid)),
      Member(PUBLIC_KEY, Str(pub)),
      Member(CANONICALIZATION, Str(RFC8785)),
      Member(SIG, Str([]))]
  }

  /** The body with its unsigned signature block: what is signed. */
  function Unsigned(pub: Text, kid: Text, body: seq<Member>): seq<Member> {
    Put(body, SIGNATURE, Dict(SignatureMeta(pub, kid)))
  }

  /** _sign then validate_record; None is an exception. */
  function Signed(p: Platform, seed: Bytes, kid: Text, body: seq<Member>): Option<Value> {
    var pub := B64Url(p.publicKey(seed));
    if !Guarded(Dict(body)) then None
    else
      var data :- CanonicalBytes(p.repr, Dict(Unsigned(pub, kid, body)));
      var sig := Str(B64Url(p.sign(seed, data)));
      var v := Dict(Put(Unsigned(pub, kid, body), SIGNATURE, Dict(Put(SignatureMeta(pub, kid), SIG, sig))));
      if ValidRecord(p, v) then Some(v) else None
  }

  /** record. */
  function RecordOf(p: Platform, seed: Bytes, c: Common, a: ActionArgs): Option<Value> {
    var pub := B64Url(p.publicKey(seed));
    var body :- RecordBody(p, pub, c, a);
    Signed(p, seed, c.KeyId(pub), body)
  }

  /** retract. */
  function RetractOf(p: Platform, seed: Bytes, prior: Value, c: Common, r: RetractArgs): Option<Value> {
    var pub := B64Url(p.publicKey(seed));
    var body :- RetractBody(p, pub, prior, c, r);
    Signed(p, seed, c.KeyId(pub), body)
  }

  /** unknown. */
  function UnknownOf(p: Platform, seed: Bytes, c: Common, u: UnknownArgs): Option<Value> {
    var pub := B64Url(p.publicKey(seed));
    Signed(p, seed, c.KeyId(pub), UnknownBody(pub, c, u))
  }

  // ---------- filling a dictionary in place ----------

  /** d[k] = v on a key that is already there keeps its place. */
  lemma {:induction false} PutAt(ms: seq<Member>, i: nat, v: Value)
    requires i < |ms| && forall j | 0 <= j < i :: ms[j].key != ms[i].key
    ensures Put(ms, ms[i].key, v) == ms[i := Member(ms[i].key, v)]
  {
    if i > 0 {
      PutAt(ms[1..], i - 1, v);
    } else {
      assert [Member(ms[0].key, v)] + ms[1..] == ms[0 := Member(ms[0].key, v)];
    }
  }

  /** The dictionary a constructor fills: body[k] = v and body[outer][k] = v. */
  class Draft {
    var members: seq<Member>

    constructor (ps: seq<Member>)
      ensures members == FromPairs(ps)
    {
      members := FromPairs(ps);
    }

    method Set(k: Text, v: Value)
      modifies this
      ensures members == Put(old(members), k, v)
    {
      members := Put(members, k, v);
    }

    method SetIn(outer: Text, k: Text, v: Value)
      requires Get(members, outer).Some? && Get(members, outer).value.Dict?
      modifies this
      ensures members == Put(old(members), outer, Dict(Put(Get(old(members), outer).value.members, k, v)))
    {
      var inner := Get(members, outer).value;
      members := Put(members, outer, Dict(Put(inner.members, k, v)));
    }

    /** _sign and validate_record. */
    method Sign(p: Platform, seed: Bytes, kid: Text) returns (r: Option<Value>)
      modifies this
      ensures r == Signed(p, seed, kid, old(members))
      ensures r.Some? ==> r.value == Dict(members)
    {
      hide CanonicalBytes, ValidRecord, Put, Guarded;
      if !Guarded(Dict(members)) {
        return None;
      }
      var pub := B64Url(p.publicKey(seed));
      ghost var body := members;
      Set(SIGNATURE, Dict(SignatureMeta(pub, kid)));
      GetPut(body, SIGNATURE, Dict(SignatureMeta(pub, kid)), SIGNATURE);
      var data := CanonicalBytes(p.repr, Dict(members));
      if data.None? {
        return None;
      }
      SetIn(SIGNATURE, SIG, Str(B64Url(p.sign(seed, data.value))));
      if !ValidRecord(p, Dict(members)) {
        return None;
      }
      return Some(Dict(members));
    }
  }
}
