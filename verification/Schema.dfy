/** The record schema as the JSON Schema document it is, with the meaning of the keywords it uses, and
    that the records' own predicate decides the same. */
module Schema {
  import opened Text
  import opened Json
  import opened Base64
  import opened Records

  // ---------- JSON Schema 2020-12, as far as it is used ----------

  /** [A-Za-z0-9_-]. */
  predicate InClass(c: CodePoint) {
    || 'A' as int <= c <= 'Z' as int || 'a' as int <= c <= 'z' as int || '0' as int <= c <= '9' as int
    || c == '_' as int || c == '-' as int
  }

  /** re.search of ^[A-Za-z0-9_-]{n}$: Python's $ also matches before a final newline. */
  predicate UrlMatch(t: Text, n: nat) { UrlWhole(t, n) || (t != [] && t[|t| - 1] == 0x0A && UrlWhole(t[..|t| - 1], n)) }

  predicate UrlWhole(t: Text, n: nat) { |t| == n && forall i | 0 <= i < n :: InClass(t[i]) }

  /** A keyword with its value; a schema is a list of them. Url is the pattern of UrlMatch. */
  datatype Keyword =
    | TypeString
    | TypeObject
    | MinLength(n: nat)
    | Url(n: nat)
    | DateTime
    | Const(s: string)
    | Enum(choices: seq<string>)
    | Required(names: seq<string>)
    | Properties(props: seq<Property>)
    | AllOf(all: seq<Branch>)
    | AnyOf(any: seq<Branch>)
    | Not(body: seq<Keyword>)
    | IfThen(cond: seq<Keyword>, body: seq<Keyword>)

  datatype Branch = Branch(rules: seq<Keyword>)

  datatype Property = Property(name: string, rules: seq<Keyword>)

  predicate Valid(p: Platform, rules: seq<Keyword>, v: Value)
    decreases rules, 1
  {
    forall i | 0 <= i < |rules| :: Holds(p, rules[i], v)
  }

  /** Keywords for strings say nothing of other values, and those for objects neither. */
  predicate Holds(p: Platform, k: Keyword, v: Value)
    decreases k, 0
  {
    match k
    case TypeString => v.Str?
    case TypeObject => v.Dict?
    case MinLength(n) => v.Str? ==> n <= |v.s|
    case Url(n) => v.Str? ==> UrlMatch(v.s, n)
    case DateTime => v.Str? ==> p.dateTime(v.s)
    case Const(s) => v == Str(T(s))
    case Enum(choices) => exists i | 0 <= i < |choices| :: v == Str(T(choices[i]))
    case Required(names) => v.Dict? ==> forall i | 0 <= i < |names| :: Has(v, T(names[i]))
    case Properties(props) => v.Dict? ==> forall i | 0 <= i < |props| :: PropertyHolds(p, props[i], v)
    case AllOf(all) => forall i | 0 <= i < |all| :: Valid(p, all[i].rules, v)
    case AnyOf(any) => exists i | 0 <= i < |any| :: Valid(p, any[i].rules, v)
    case Not(body) => !Valid(p, body, v)
    case IfThen(cond, body) => Valid(p, cond, v) ==> Valid(p, body, v)
  }

  predicate PropertyHolds(p: Platform, property: Property, v: Value)
    requires v.Dict?
    decreases property, 0
  {
    Has(v, T(property.name)) ==> Valid(p, property.rules, Field(v, T(property.name)).value)
  }

  // ---------- acr-v1.json ----------

  const TEXT: seq<Keyword> := [TypeString]
  const NONEMPTY: seq<Keyword> := [TypeString, MinLength(1)]

  const AGENT_RULES: seq<Keyword> := [
    TypeObject,
    Required(["id"]),
    Properties([
      Property("id", NONEMPTY), Property("name", TEXT), Property("version", TEXT),
      Property("publicKey", [TypeString, Url(43)])])]

  const PRINCIPAL_RULES: seq<Keyword> := [
    TypeObject,
    Required(["id", "type"]),
    Properties([Property("id", NONEMPTY), Property("type", TEXT)])]

  const DIGEST_RULES: seq<Keyword> := [
    TypeObject,
    Required(["alg", "digest"]),
    Properties([Property("alg", [Const("sha256")]), Property("digest", [TypeString, Url(43)])])]

  const SUPERSEDES_RULES: seq<Keyword> := [
    TypeObject,
    Required(["receiptId", "digest"]),
    Properties([Property("receiptId", NONEMPTY), Property("digest", DIGEST_RULES)])]

  const ACTION_RULES: seq<Keyword> := [
    TypeObject,
    Required(["type"]),
    Properties([Property("type", NONEMPTY), Property("target", TEXT)])]

  const TRIGGER_RULES: seq<Keyword> := [
    TypeString, Enum(["supersede", "check_failed", "human_flagged", "self_correction"])]

  const CONTENT_HASH_RULES: seq<Keyword> := [
    TypeObject,
    Required(["alg", "digest"]),
    Properties([Property("alg", TEXT), Property("digest", [TypeString, MinLength(16)])])]

  const SOURCE_RULES: seq<Keyword> := [
    TypeObject,
    Required(["type", "reference"]),
    Properties([
      Property("type", [Enum(["schema", "document", "database", "api", "human", "other"])]),
      Property("reference", NONEMPTY)])]

  const FIX_RULES: seq<Keyword> := [
    TypeObject,
    Required(["type"]),
    Properties([
      Property("type", [TypeString, Enum(["replace", "delete", "rollback", "noop", "other"])]),
      Property("contentHash", CONTENT_HASH_RULES), Property("note", TEXT), Property("source", SOURCE_RULES)])]

  const SIGNATURE_RULES: seq<Keyword> := [
    TypeObject,
    Required(["alg", "kid", "canonicalization", "sig", "publicKey"]),
    Properties([
      Property("alg", [TypeString, Const("Ed25519")]), Property("kid", NONEMPTY),
      Property("publicKey", [TypeString, Url(43)]), Property("canonicalization", [TypeString, Const("RFC8785")]),
      Property("sig", [TypeString, Url(86)])])]

  const RECORD_PROPERTIES: seq<Property> := [
    Property("correctionId", NONEMPTY),
    Property("agent", AGENT_RULES),
    Property("principal", PRINCIPAL_RULES),
    Property("supersedes", SUPERSEDES_RULES),
    Property("action", ACTION_RULES),
    Property("reason", TEXT),
    Property("trigger", TRIGGER_RULES),
    Property("fix", FIX_RULES),
    Property("timestamp", [TypeString, DateTime]),
    Property("signature", SIGNATURE_RULES),
    Property("metadata", [TypeObject]),
    Property("kind", [Enum(["action", "correction", "unknown"])]),
    Property("subject", NONEMPTY),
    Property("note", TEXT)]

  /** {"required": ["kind"], "properties": {"kind": {"const": ...}}}. */
  function KindIs(kind: string): seq<Keyword> {
    [Required(["kind"]), Properties([Property("kind", [Const(kind)])])]
  }

  const CHAIN_MEMBERS: seq<Branch> := [
    Branch([Required(["supersedes"])]), Branch([Required(["fix"])]), Branch([Required(["action"])])]

  const CONDITIONS: seq<Branch> := [
    Branch([IfThen(KindIs("unknown"),
                   [Required(["subject"]),
                    Not([AnyOf(CHAIN_MEMBERS)])])]),
    Branch([IfThen([Not(KindIs("unknown"))], [Required(["action", "reason", "trigger", "fix"])])]),
    Branch([IfThen([Required(["supersedes"])],
                   [Properties([Property("reason", [MinLength(1)]), Property("kind", [Const("correction")])])])]),
    Branch([IfThen(KindIs("correction"), [Required(["supersedes"])])]),
    Branch([IfThen(KindIs("action"), [Not([Required(["supersedes"])])])])]

  const ACR_V1: seq<Keyword> := [
    TypeObject,
    Required(["correctionId", "agent", "principal", "timestamp", "signature"]),
    Properties(RECORD_PROPERTIES),
    AllOf(CONDITIONS)]

  // ---------- short lists ----------

  lemma One(p: Platform, a: Keyword, v: Value)
    ensures Valid(p, [a], v) <==> Holds(p, a, v)
  {
    hide Holds;
    assert [a][0] == a;
  }

  lemma Two(p: Platform, a: Keyword, b: Keyword, v: Value)
    ensures Valid(p, [a, b], v) <==> Holds(p, a, v) && Holds(p, b, v)
  {
    hide Holds;
    assert [a, b][0] == a && [a, b][1] == b;
  }

  lemma Three(p: Platform, a: Keyword, b: Keyword, c: Keyword, v: Value)
    ensures Valid(p, [a, b, c], v) <==> Holds(p, a, v) && Holds(p, b, v) && Holds(p, c, v)
  {
    hide Holds;
    assert [a, b, c][0] == a && [a, b, c][1] == b && [a, b, c][2] == c;
  }

  lemma RequiredOne(p: Platform, a: string, v: Value)
    requires v.Dict?
    ensures Holds(p, Required([a]), v) <==> Has(v, T(a))
  {
    hide T, Get;
    assert [a][0] == a;
  }

  lemma RequiredTwo(p: Platform, a: string, b: string, v: Value)
    requires v.Dict?
    ensures Holds(p, Required([a, b]), v) <==> Has(v, T(a)) && Has(v, T(b))
  {
    hide T, Get;
    assert [a, b][0] == a && [a, b][1] == b;
  }

  lemma RequiredFive(p: Platform, a: string, b: string, c: string, d: string, e: string, v: Value)
    requires v.Dict?
    ensures Holds(p, Required([a, b, c, d, e]), v) <==>
      Has(v, T(a)) && Has(v, T(b)) && Has(v, T(c)) && Has(v, T(d)) && Has(v, T(e))
  {
    hide T, Get;
    var ns := [a, b, c, d, e];
    assert ns[0] == a && ns[1] == b && ns[2] == c && ns[3] == d && ns[4] == e;
  }

  lemma RequiredFour(p: Platform, a: string, b: string, c: string, d: string, v: Value)
    requires v.Dict?
    ensures Holds(p, Required([a, b, c, d]), v) <==> Has(v, T(a)) && Has(v, T(b)) && Has(v, T(c)) && Has(v, T(d))
  {
    hide T, Get;
    var ns := [a, b, c, d];
    assert ns[0] == a && ns[1] == b && ns[2] == c && ns[3] == d;
  }

  lemma PropertiesAre(p: Platform, ps: seq<Property>, v: Value)
    requires v.Dict?
    ensures Holds(p, Properties(ps), v) <==> forall i | 0 <= i < |ps| :: PropertyHolds(p, ps[i], v)
  {
    hide PropertyHolds;
  }

  lemma PropertiesTwo(p: Platform, a: Property, b: Property, v: Value)
    requires v.Dict?
    ensures Holds(p, Properties([a, b]), v) <==> PropertyHolds(p, a, v) && PropertyHolds(p, b, v)
  {
    hide PropertyHolds;
    PropertiesAre(p, [a, b], v);
    assert [a, b][0] == a && [a, b][1] == b;
  }

  lemma PropertiesFour(p: Platform, a: Property, b: Property, c: Property, d: Property, v: Value)
    requires v.Dict?
    ensures Holds(p, Properties([a, b, c, d]), v) <==>
      PropertyHolds(p, a, v) && PropertyHolds(p, b, v) && PropertyHolds(p, c, v) && PropertyHolds(p, d, v)
  {
    hide PropertyHolds;
    var ps := [a, b, c, d];
    PropertiesAre(p, ps, v);
    assert ps[0] == a && ps[1] == b && ps[2] == c && ps[3] == d;
  }

  // ---------- single properties ----------

  lemma TextRule(p: Platform, name: string, v: Value)
    requires v.Dict?
    ensures PropertyHolds(p, Property(name, TEXT), v) <==> StringProp(Field(v, T(name)), 0)
  {
    hide T, Get;
    if Has(v, T(name)) { One(p, TypeString, Field(v, T(name)).value); }
  }

  lemma LengthRule(p: Platform, name: string, n: nat, v: Value)
    requires v.Dict?
    ensures PropertyHolds(p, Property(name, [TypeString, MinLength(n)]), v) <==> StringProp(Field(v, T(name)), n)
  {
    hide T, Get;
    if Has(v, T(name)) { Two(p, TypeString, MinLength(n), Field(v, T(name)).value); }
  }

  lemma UrlRule(p: Platform, name: string, n: nat, v: Value)
    requires v.Dict?
    ensures PropertyHolds(p, Property(name, [TypeString, Url(n)]), v) <==> PatternProp(Field(v, T(name)), n)
  {
    hide T, Get, MatchesUrl, UrlMatch;
    if Has(v, T(name)) {
      var w := Field(v, T(name)).value;
      Two(p, TypeString, Url(n), w);
      if w.Str? { MatchMeans(w.s, n); }
    }
  }

  lemma ClassMeans(c: CodePoint)
    ensures UrlChar(c) <==> InClass(c)
  {}

  lemma MatchMeans(t: Text, n: nat)
    ensures MatchesUrl(t, n) <==> UrlMatch(t, n)
  {
    hide UrlChar, InClass;
    forall c ensures UrlChar(c) <==> InClass(c) { ClassMeans(c); }
  }

  lemma ConstRule(p: Platform, name: string, c: string, v: Value)
    requires v.Dict? && Has(v, T(name))
    ensures PropertyHolds(p, Property(name, [TypeString, Const(c)]), v) <==> IsConst(Field(v, T(name)), T(c))
    ensures PropertyHolds(p, Property(name, [Const(c)]), v) <==> IsConst(Field(v, T(name)), T(c))
  {
    hide T, Get;
    Two(p, TypeString, Const(c), Field(v, T(name)).value);
    One(p, Const(c), Field(v, T(name)).value);
  }

  lemma EnumRule(p: Platform, name: string, choices: seq<string>, texts: seq<Text>, v: Value)
    requires v.Dict? && |choices| == |texts| && forall i | 0 <= i < |choices| :: texts[i] == T(choices[i])
    ensures PropertyHolds(p, Property(name, [TypeString, Enum(choices)]), v) <==> EnumProp(Field(v, T(name)), texts)
    ensures PropertyHolds(p, Property(name, [Enum(choices)]), v) <==> EnumProp(Field(v, T(name)), texts)
  {
    hide T, Get;
    if Has(v, T(name)) {
      var w := Field(v, T(name)).value;
      Two(p, TypeString, Enum(choices), w);
      One(p, Enum(choices), w);
      if Holds(p, Enum(choices), w) {
        var i :| 0 <= i < |choices| && w == Str(T(choices[i]));
        assert texts[i] in texts;
      }
      if w.Str? && w.s in texts {
        var i :| 0 <= i < |texts| && texts[i] == w.s;
        assert w == Str(T(choices[i]));
      }
    }
  }

  // ---------- the objects inside a record ----------

  lemma AgentMeans(p: Platform, a: Value)
    ensures Valid(p, AGENT_RULES, a) <==> AgentOk(a)
  {
    hide T, Get, PropertyHolds, StringProp, PatternProp, Holds;
    IsObject(p, a);
    Three(p, AGENT_RULES[0], AGENT_RULES[1], AGENT_RULES[2], a);
    if a.Dict? {
      RequiredOne(p, "id", a);
      var ps := AGENT_RULES[2].props;
      PropertiesFour(p, ps[0], ps[1], ps[2], ps[3], a);
      LengthRule(p, "id", 1, a);
      TextRule(p, "name", a);
      TextRule(p, "version", a);
      UrlRule(p, "publicKey", 43, a);
    }
  }

  lemma IsObject(p: Platform, v: Value)
    ensures Holds(p, TypeObject, v) <==> v.Dict?
  {}

  lemma PrincipalMeans(p: Platform, a: Value)
    ensures Valid(p, PRINCIPAL_RULES, a) <==> PrincipalOk(a)
  {
    hide T, Get, PropertyHolds, StringProp, Holds;
    IsObject(p, a);
    Three(p, PRINCIPAL_RULES[0], PRINCIPAL_RULES[1], PRINCIPAL_RULES[2], a);
    if a.Dict? {
      RequiredTwo(p, "id", "type", a);
      var ps := PRINCIPAL_RULES[2].props;
      PropertiesTwo(p, ps[0], ps[1], a);
      LengthRule(p, "id", 1, a);
      TextRule(p, "type", a);
    }
  }

  lemma DigestMeans(p: Platform, a: Value)
    ensures Valid(p, DIGEST_RULES, a) <==> DigestOk(a)
  {
    hide T, Get, PropertyHolds, StringProp, PatternProp, IsConst, Holds;
    IsObject(p, a);
    Three(p, DIGEST_RULES[0], DIGEST_RULES[1], DIGEST_RULES[2], a);
    if a.Dict? {
      RequiredTwo(p, "alg", "digest", a);
      var ps := DIGEST_RULES[2].props;
      PropertiesTwo(p, ps[0], ps[1], a);
      if Has(a, T("alg")) { ConstRule(p, "alg", "sha256", a); }
      UrlRule(p, "digest", 43, a);
    }
  }

  lemma SupersedesMeans(p: Platform, a: Value)
    ensures Valid(p, SUPERSEDES_RULES, a) <==> SupersedesOk(a)
  {
    hide T, Get, PropertyHolds, StringProp, DigestOk, Holds;
    IsObject(p, a);
    Three(p, SUPERSEDES_RULES[0], SUPERSEDES_RULES[1], SUPERSEDES_RULES[2], a);
    if a.Dict? {
      RequiredTwo(p, "receiptId", "digest", a);
      var ps := SUPERSEDES_RULES[2].props;
      PropertiesTwo(p, ps[0], ps[1], a);
      LengthRule(p, "receiptId", 1, a);
      Inner(p, "digest", DIGEST_RULES, a);
      if Has(a, T("digest")) { DigestMeans(p, Field(a, T("digest")).value); }
    }
  }

  lemma Inner(p: Platform, name: string, rules: seq<Keyword>, v: Value)
    requires v.Dict?
    ensures PropertyHolds(p, Property(name, rules), v) <==>
      (Has(v, T(name)) ==> Valid(p, rules, Field(v, T(name)).value))
  {
    hide T, Get, Valid;
  }

  lemma ActionMeans(p: Platform, a: Value)
    ensures Valid(p, ACTION_RULES, a) <==> ActionOk(a)
  {
    hide T, Get, PropertyHolds, StringProp, Holds;
    IsObject(p, a);
    Three(p, ACTION_RULES[0], ACTION_RULES[1], ACTION_RULES[2], a);
    if a.Dict? {
      RequiredOne(p, "type", a);
      var ps := ACTION_RULES[2].props;
      PropertiesTwo(p, ps[0], ps[1], a);
      LengthRule(p, "type", 1, a);
      TextRule(p, "target", a);
    }
  }

  lemma ContentHashMeans(p: Platform, a: Value)
    ensures Valid(p, CONTENT_HASH_RULES, a) <==> ContentHashOk(a)
  {
    hide T, Get, PropertyHolds, StringProp, Holds;
    IsObject(p, a);
    Three(p, CONTENT_HASH_RULES[0], CONTENT_HASH_RULES[1], CONTENT_HASH_RULES[2], a);
    if a.Dict? {
      RequiredTwo(p, "alg", "digest", a);
      var ps := CONTENT_HASH_RULES[2].props;
      PropertiesTwo(p, ps[0], ps[1], a);
      TextRule(p, "alg", a);
      LengthRule(p, "digest", 16, a);
    }
  }

  lemma SourceMeans(p: Platform, a: Value)
    ensures Valid(p, SOURCE_RULES, a) <==> SourceOk(a)
  {
    hide T, Get, PropertyHolds, StringProp, EnumProp, Holds;
    IsObject(p, a);
    Three(p, SOURCE_RULES[0], SOURCE_RULES[1], SOURCE_RULES[2], a);
    if a.Dict? {
      RequiredTwo(p, "type", "reference", a);
      var ps := SOURCE_RULES[2].props;
      PropertiesTwo(p, ps[0], ps[1], a);
      EnumRule(p, "type", ["schema", "document", "database", "api", "human", "other"], SOURCE_TYPES, a);
      LengthRule(p, "reference", 1, a);
    }
  }

  lemma FixMeans(p: Platform, a: Value)
    ensures Valid(p, FIX_RULES, a) <==> FixOk(a)
  {
    hide T, Get, PropertyHolds, StringProp, EnumProp, Holds, ContentHashOk, SourceOk;
    IsObject(p, a);
    Three(p, FIX_RULES[0], FIX_RULES[1], FIX_RULES[2], a);
    if a.Dict? {
      RequiredOne(p, "type", a);
      var ps := FIX_RULES[2].props;
      PropertiesFour(p, ps[0], ps[1], ps[2], ps[3], a);
      EnumRule(p, "type", ["replace", "delete", "rollback", "noop", "other"], FIX_TYPES, a);
      TextRule(p, "note", a);
      Inner(p, "contentHash", CONTENT_HASH_RULES, a);
      Inner(p, "source", SOURCE_RULES, a);
      if Has(a, T("contentHash")) { ContentHashMeans(p, Field(a, T("contentHash")).value); }
      if Has(a, T("source")) { SourceMeans(p, Field(a, T("source")).value); }
    }
  }

  lemma SignatureMeans(p: Platform, a: Value)
    ensures Valid(p, SIGNATURE_RULES, a) <==> SignatureOk(a)
  {
    hide T, Get, PropertyHolds, StringProp, PatternProp, IsConst, Holds;
    IsObject(p, a);
    Three(p, SIGNATURE_RULES[0], SIGNATURE_RULES[1], SIGNATURE_RULES[2], a);
    if a.Dict? {
      RequiredFive(p, "alg", "kid", "canonicalization", "sig", "publicKey", a);
      var ps := SIGNATURE_RULES[2].props;
      PropertiesFive(p, ps[0], ps[1], ps[2], ps[3], ps[4], a);
      if Has(a, T("alg")) { ConstRule(p, "alg", "Ed25519", a); }
      LengthRule(p, "kid", 1, a);
      UrlRule(p, "publicKey", 43, a);
      if Has(a, T("canonicalization")) { ConstRule(p, "canonicalization", "RFC8785", a); }
      UrlRule(p, "sig", 86, a);
    }
  }

  lemma PropertiesFive(p: Platform, a: Property, b: Property, c: Property, d: Property, e: Property, v: Value)
    requires v.Dict?
    ensures Holds(p, Properties([a, b, c, d, e]), v) <==>
      && PropertyHolds(p, a, v) && PropertyHolds(p, b, v) && PropertyHolds(p, c, v) && PropertyHolds(p, d, v)
      && PropertyHolds(p, e, v)
  {
    hide PropertyHolds;
    var ps := [a, b, c, d, e];
    PropertiesAre(p, ps, v);
    assert ps[0] == a && ps[1] == b && ps[2] == c && ps[3] == d && ps[4] == e;
  }

  // ---------- the record ----------

  lemma PropertyMeans(p: Platform, v: Value)
    requires v.Dict?
    ensures Holds(p, Properties(RECORD_PROPERTIES), v) <==> PropertiesOk(p, v)
  {
    hide T, Get, PropertyHolds, StringProp, EnumProp, PatternProp, Holds, Valid;
    hide AgentOk, PrincipalOk, SupersedesOk, ActionOk, FixOk, SignatureOk;
    var ps := RECORD_PROPERTIES;
    PropertiesAre(p, ps, v);
    AllFourteen(p, ps, v);
    LengthRule(p, "correctionId", 1, v);
    Inner(p, "agent", AGENT_RULES, v);
    Inner(p, "principal", PRINCIPAL_RULES, v);
    Inner(p, "supersedes", SUPERSEDES_RULES, v);
    Inner(p, "action", ACTION_RULES, v);
    TextRule(p, "reason", v);
    EnumRule(p, "trigger", ["supersede", "check_failed", "human_flagged", "self_correction"], TRIGGERS, v);
    Inner(p, "fix", FIX_RULES, v);
    TimeRule(p, v);
    Inner(p, "signature", SIGNATURE_RULES, v);
    Inner(p, "metadata", [TypeObject], v);
    EnumRule(p, "kind", ["action", "correction", "unknown"], [ACTION, CORRECTION, UNKNOWN], v);
    LengthRule(p, "subject", 1, v);
    TextRule(p, "note", v);
    InnerMeans(p, v);
  }

  lemma AllFourteen(p: Platform, ps: seq<Property>, v: Value)
    requires v.Dict? && |ps| == 14
    ensures (forall i | 0 <= i < |ps| :: PropertyHolds(p, ps[i], v)) <==>
      && PropertyHolds(p, ps[0], v) && PropertyHolds(p, ps[1], v) && PropertyHolds(p, ps[2], v)
      && PropertyHolds(p, ps[3], v) && PropertyHolds(p, ps[4], v) && PropertyHolds(p, ps[5], v)
      && PropertyHolds(p, ps[6], v) && PropertyHolds(p, ps[7], v) && PropertyHolds(p, ps[8], v)
      && PropertyHolds(p, ps[9], v) && PropertyHolds(p, ps[10], v) && PropertyHolds(p, ps[11], v)
      && PropertyHolds(p, ps[12], v) && PropertyHolds(p, ps[13], v)
  {
    hide PropertyHolds;
  }

  lemma TimeRule(p: Platform, v: Value)
    requires v.Dict?
    ensures PropertyHolds(p, Property("timestamp", [TypeString, DateTime]), v) <==>
      StringProp(Field(v, TIMESTAMP), 0) && (Has(v, TIMESTAMP) ==> p.dateTime(Field(v, TIMESTAMP).value.s))
  {
    hide T, Get;
    if Has(v, T("timestamp")) { Two(p, TypeString, DateTime, Field(v, T("timestamp")).value); }
  }

  lemma InnerMeans(p: Platform, v: Value)
    requires v.Dict?
    ensures Has(v, AGENT) ==> Valid(p, AGENT_RULES, Field(v, AGENT).value) == AgentOk(Field(v, AGENT).value)
    ensures Has(v, PRINCIPAL) ==> Valid(p, PRINCIPAL_RULES, Field(v, PRINCIPAL).value) == PrincipalOk(Field(v, PRINCIPAL).value)
    ensures Has(v, SUPERSEDES) ==>
      Valid(p, SUPERSEDES_RULES, Field(v, SUPERSEDES).value) == SupersedesOk(Field(v, SUPERSEDES).value)
    ensures Has(v, ACTION) ==> Valid(p, ACTION_RULES, Field(v, ACTION).value) == ActionOk(Field(v, ACTION).value)
    ensures Has(v, FIX) ==> Valid(p, FIX_RULES, Field(v, FIX).value) == FixOk(Field(v, FIX).value)
    ensures Has(v, SIGNATURE) ==> Valid(p, SIGNATURE_RULES, Field(v, SIGNATURE).value) == SignatureOk(Field(v, SIGNATURE).value)
    ensures Has(v, METADATA) ==> Valid(p, [TypeObject], Field(v, METADATA).value) == Field(v, METADATA).value.Dict?
  {
    hide T, Get, Holds, Valid, AgentOk, PrincipalOk, SupersedesOk, ActionOk, FixOk, SignatureOk;
    if Has(v, AGENT) { AgentMeans(p, Field(v, AGENT).value); }
    if Has(v, PRINCIPAL) { PrincipalMeans(p, Field(v, PRINCIPAL).value); }
    if Has(v, SUPERSEDES) { SupersedesMeans(p, Field(v, SUPERSEDES).value); }
    if Has(v, ACTION) { ActionMeans(p, Field(v, ACTION).value); }
    if Has(v, FIX) { FixMeans(p, Field(v, FIX).value); }
    if Has(v, SIGNATURE) { SignatureMeans(p, Field(v, SIGNATURE).value); }
    if Has(v, METADATA) {
      One(p, TypeObject, Field(v, METADATA).value);
      IsObject(p, Field(v, METADATA).value);
    }
  }

  lemma KindMeans(p: Platform, kind: string, v: Value)
    requires v.Dict?
    ensures Valid(p, KindIs(kind), v) <==> IsConst(Field(v, KIND), T(kind))
  {
    hide T, Get, PropertyHolds, Holds;
    var prop := Property("kind", [Const(kind)]);
    Two(p, Required(["kind"]), Properties([prop]), v);
    RequiredOne(p, "kind", v);
    PropertiesOne(p, prop, v);
    if Has(v, T("kind")) { ConstRule(p, "kind", kind, v); }
  }

  lemma PropertiesOne(p: Platform, a: Property, v: Value)
    requires v.Dict?
    ensures Holds(p, Properties([a]), v) <==> PropertyHolds(p, a, v)
  {
    hide PropertyHolds;
    PropertiesAre(p, [a], v);
    assert [a][0] == a;
  }

  lemma ConditionMeans(p: Platform, cond: seq<Keyword>, body: seq<Keyword>, v: Value)
    ensures Valid(p, [IfThen(cond, body)], v) <==> (Valid(p, cond, v) ==> Valid(p, body, v))
  {
    hide Valid;
    One(p, IfThen(cond, body), v);
  }

  lemma NotMeans(p: Platform, body: seq<Keyword>, v: Value)
    ensures Valid(p, [Not(body)], v) <==> !Valid(p, body, v)
  {
    hide Valid;
    One(p, Not(body), v);
  }

  lemma RequiredMeans(p: Platform, name: string, v: Value)
    requires v.Dict?
    ensures Valid(p, [Required([name])], v) <==> Has(v, T(name))
  {
    hide T, Get, Holds;
    One(p, Required([name]), v);
    RequiredOne(p, name, v);
  }

  lemma NoneOfMeans(p: Platform, v: Value)
    requires v.Dict?
    ensures Holds(p, Not([AnyOf(CHAIN_MEMBERS)]), v) <==> !Has(v, SUPERSEDES) && !Has(v, FIX) && !Has(v, ACTION)
  {
    hide T, Get, Valid;
    var bs := CHAIN_MEMBERS;
    One(p, AnyOf(bs), v);
    RequiredMeans(p, "supersedes", v);
    RequiredMeans(p, "fix", v);
    RequiredMeans(p, "action", v);
    assert bs[0].rules == [Required(["supersedes"])];
    assert bs[1].rules == [Required(["fix"])] && bs[2].rules == [Required(["action"])];
  }

  /** What the first two conditions ask. */
  lemma KindOrAction(p: Platform, v: Value)
    requires v.Dict?
    ensures Valid(p, CONDITIONS[0].rules, v) && Valid(p, CONDITIONS[1].rules, v) <==>
      if IsConst(Field(v, KIND), UNKNOWN)
      then Has(v, SUBJECT) && !Has(v, SUPERSEDES) && !Has(v, FIX) && !Has(v, ACTION)
      else Has(v, ACTION) && Has(v, REASON) && Has(v, TRIGGER) && Has(v, FIX)
  {
    hide T, Get, Valid, Holds, KindIs;
    KindMeans(p, "unknown", v);
    NotMeans(p, KindIs("unknown"), v);
    var first, second := CONDITIONS[0].rules[0], CONDITIONS[1].rules[0];
    ConditionMeans(p, first.cond, first.body, v);
    ConditionMeans(p, second.cond, second.body, v);
    Two(p, first.body[0], first.body[1], v);
    RequiredOne(p, "subject", v);
    NoneOfMeans(p, v);
    One(p, second.body[0], v);
    RequiredFour(p, "action", "reason", "trigger", "fix", v);
  }

  /** And the other three, of a record whose reason is a string. */
  lemma KindOrLink(p: Platform, v: Value)
    requires v.Dict? && StringProp(Field(v, REASON), 0)
    ensures Valid(p, CONDITIONS[2].rules, v) && Valid(p, CONDITIONS[3].rules, v) && Valid(p, CONDITIONS[4].rules, v) <==>
      && (Has(v, SUPERSEDES) ==> StringProp(Field(v, REASON), 1) && (Has(v, KIND) ==> IsConst(Field(v, KIND), CORRECTION)))
      && (IsConst(Field(v, KIND), CORRECTION) ==> Has(v, SUPERSEDES))
      && (IsConst(Field(v, KIND), ACTION) ==> !Has(v, SUPERSEDES))
  {
    hide T, Get, Valid, Holds, KindIs, PropertyHolds;
    KindMeans(p, "correction", v);
    KindMeans(p, "action", v);
    RequiredMeans(p, "supersedes", v);
    NotMeans(p, [Required(["supersedes"])], v);
    var third, fourth, fifth := CONDITIONS[2].rules[0], CONDITIONS[3].rules[0], CONDITIONS[4].rules[0];
    ConditionMeans(p, third.cond, third.body, v);
    ConditionMeans(p, fourth.cond, fourth.body, v);
    ConditionMeans(p, fifth.cond, fifth.body, v);
    One(p, third.body[0], v);
    var ps := third.body[0].props;
    PropertiesTwo(p, ps[0], ps[1], v);
    ReasonRule(p, v);
    if Has(v, T("kind")) { ConstRule(p, "kind", "correction", v); } else { Inner(p, "kind", [Const("correction")], v); }
  }

  lemma ReasonRule(p: Platform, v: Value)
    requires v.Dict? && StringProp(Field(v, REASON), 0)
    ensures PropertyHolds(p, Property("reason", [MinLength(1)]), v) <==> StringProp(Field(v, REASON), 1)
  {
    hide T, Get;
    if Has(v, T("reason")) { One(p, MinLength(1), Field(v, T("reason")).value); }
  }

  lemma ConditionsAre(p: Platform, v: Value)
    ensures Holds(p, AllOf(CONDITIONS), v) <==>
      && Valid(p, CONDITIONS[0].rules, v) && Valid(p, CONDITIONS[1].rules, v) && Valid(p, CONDITIONS[2].rules, v)
      && Valid(p, CONDITIONS[3].rules, v) && Valid(p, CONDITIONS[4].rules, v)
  {
    hide Valid;
    assert |CONDITIONS| == 5;
  }

  /** The records' predicate is the document. */
  lemma SchemaMeans(p: Platform, v: Value)
    ensures Valid(p, ACR_V1, v) <==> SchemaOk(p, v)
  {
    hide T, Get, Holds, PropertiesOk;
    IsObject(p, v);
    FourRules(p, ACR_V1[0], ACR_V1[1], ACR_V1[2], ACR_V1[3], v);
    if v.Dict? {
      RequiredFive(p, "correctionId", "agent", "principal", "timestamp", "signature", v);
      PropertyMeans(p, v);
      ConditionsAre(p, v);
      ReasonIsText(p, v);
      KindOrAction(p, v);
      if StringProp(Field(v, REASON), 0) { KindOrLink(p, v); }
    }
  }

  lemma ReasonIsText(p: Platform, v: Value)
    ensures PropertiesOk(p, v) ==> StringProp(Field(v, REASON), 0)
  {
    hide AgentOk, PrincipalOk, SupersedesOk, ActionOk, FixOk, SignatureOk;
  }

  lemma FourRules(p: Platform, a: Keyword, b: Keyword, c: Keyword, d: Keyword, v: Value)
    ensures Valid(p, [a, b, c, d], v) <==> Holds(p, a, v) && Holds(p, b, v) && Holds(p, c, v) && Holds(p, d, v)
  {
    hide Holds;
    var ks := [a, b, c, d];
    assert ks[0] == a && ks[1] == b && ks[2] == c && ks[3] == d;
  }
}
