/** Python's == on JSON values, and what the verifiers' comparisons with it decide. */
module Equality {
  import opened Wrappers
  import opened Text
  import opened Binary64
  import opened Json
  import opened Records

  /** The number a value compares as: True is 1 and False is 0. */
  function Number(v: Value): Option<real> {
    match v
    case Bool(b) => Some(if b then 1.0 else 0.0)
    case Int(n) => Some(n as real)
    case Float(x) => if x.Finite? then Some(if x.neg then -x.mag.Value() else x.mag.Value()) else None
    case _ => None
  }

  /** v == w. */
  predicate PyEqual(v: Value, w: Value) {
    match v
    case Null => w.Null?
    case Str(s) => v == w
    case Float(x) => if x.Finite? then Number(v) == Number(w) else x.Infinite? && v == w
    case Dict(ms) => w.Dict? && |ms| == |w.members| && forall i | 0 <= i < |ms| ::
      Field(w, ms[i].key).Some? && PyEqual(ms[i].value, Field(w, ms[i].key).value)
    case List(xs) => w.List? && |xs| == |w.items| && forall i | 0 <= i < |xs| :: PyEqual(xs[i], w.items[i])
    case Tuple(xs) => w.Tuple? && |xs| == |w.items| && forall i | 0 <= i < |xs| :: PyEqual(xs[i], w.items[i])
    case Opaque => false
    case _ => Number(v) == Number(w)
  }

  // ---------- dictionaries of known shape ----------

  function Keys(ms: seq<Member>): set<Text> { set i | 0 <= i < |ms| :: ms[i].key }

  lemma {:induction false} KeysCount(ms: seq<Member>)
    requires UniqueKeys(ms)
    ensures |Keys(ms)| == |ms|
  {
    if ms != [] {
      KeysCount(ms[1..]);
      assert Keys(ms) == Keys(ms[1..]) + {ms[0].key} by {
        forall k | k in Keys(ms) ensures k in Keys(ms[1..]) + {ms[0].key} {
          var i :| 0 <= i < |ms| && ms[i].key == k;
          if i > 0 { assert ms[1..][i - 1].key == k; }
        }
        forall k | k in Keys(ms[1..]) ensures k in Keys(ms) {
          var i :| 0 <= i < |ms[1..]| && ms[1..][i].key == k;
          assert ms[i + 1].key == k;
        }
        assert ms[0].key in Keys(ms);
      }
      assert ms[0].key !in Keys(ms[1..]);
    }
  }

  lemma {:induction false} SameCount<X>(a: set<X>, b: set<X>)
    requires a <= b && |a| == |b|
    ensures a == b
  {
    if x :| x in a {
      SameCount(a - {x}, b - {x});
    }
  }

  /** Every member of w has its equal in v. */
  predicate Covers(v: Value, w: Value)
    requires w.Dict?
  {
    forall i | 0 <= i < |w.members| ::
      Field(v, w.members[i].key).Some? && PyEqual(Field(v, w.members[i].key).value, w.members[i].value)
  }

  /** Dictionaries are equal when they have the same size and every member of the second has its
      equal in the first. */
  lemma EqualDicts(v: Value, w: Value)
    requires v.Dict? && w.Dict? && UniqueKeys(v.members) && UniqueKeys(w.members)
    ensures PyEqual(v, w) <==> |v.members| == |w.members| && Covers(v, w)
  {
    hide UniqueKeys;
    if PyEqual(v, w) { EqualCovers(v, w); }
    if |v.members| == |w.members| && Covers(v, w) { CoversEqual(v, w); }
  }

  lemma EqualCovers(v: Value, w: Value)
    requires v.Dict? && w.Dict? && UniqueKeys(v.members) && UniqueKeys(w.members) && PyEqual(v, w)
    ensures Covers(v, w)
  {
    hide UniqueKeys, Get;
    var ms, ns := v.members, w.members;
    KeysCount(ms);
    KeysCount(ns);
    forall i | 0 <= i < |ms| ensures ms[i].key in Keys(ns) { InKeys(ns, ms[i].key); }
    SameCount(Keys(ms), Keys(ns));
    forall i | 0 <= i < |ns| ensures Field(v, ns[i].key).Some? && PyEqual(Field(v, ns[i].key).value, ns[i].value) {
      assert ns[i].key in Keys(ms);
      var j :| 0 <= j < |ms| && ms[j].key == ns[i].key;
      GetUnique(ms, ms[j]);
      GetUnique(ns, ns[i]);
    }
  }

  lemma CoversEqual(v: Value, w: Value)
    requires v.Dict? && w.Dict? && UniqueKeys(v.members) && UniqueKeys(w.members)
    requires |v.members| == |w.members| && Covers(v, w)
    ensures PyEqual(v, w)
  {
    hide UniqueKeys, Get;
    var ms, ns := v.members, w.members;
    KeysCount(ms);
    KeysCount(ns);
    forall i | 0 <= i < |ns| ensures ns[i].key in Keys(ms) { InKeys(ms, ns[i].key); }
    SameCount(Keys(ns), Keys(ms));
    forall j | 0 <= j < |ms| ensures Field(w, ms[j].key).Some? && PyEqual(ms[j].value, Field(w, ms[j].key).value) {
      assert ms[j].key in Keys(ns);
      var i :| 0 <= i < |ns| && ns[i].key == ms[j].key;
      GetUnique(ms, ms[j]);
      GetUnique(ns, ns[i]);
    }
  }

  lemma InKeys(ms: seq<Member>, k: Text)
    requires Get(ms, k).Some?
    ensures k in Keys(ms)
  {
    GetFinds(ms, k);
    var m := Member(k, Get(ms, k).value);
    var i :| 0 <= i < |ms| && ms[i] == m;
  }

  // ---------- the verifiers' two comparisons ----------

  function HashDict(text: Text): Value { Dict([Member(ALG, Str(SHA256)), Member(DIGEST, Str(text))]) }

  /** Two string members: the comparison of a supersedes digest. */
  lemma HashEqual(d: Value, text: Text)
    requires Proper(d)
    ensures PyEqual(d, HashDict(text)) <==>
      d.Dict? && |d.members| == 2 && Field(d, ALG) == Some(Str(SHA256)) && Field(d, DIGEST) == Some(Str(text))
  {
    hide PyEqual, Field;
    var w := HashDict(text);
    DifferentNames("alg", "digest");
    OnlyDicts(d, w);
    if d.Dict? {
      EqualDicts(d, w);
      CoversTwo(d, w);
      EqualStr(d, ALG, SHA256);
      EqualStr(d, DIGEST, text);
    }
  }

  lemma OnlyDicts(v: Value, w: Value)
    requires w.Dict?
    ensures PyEqual(v, w) ==> v.Dict?
  {}

  lemma CoversTwo(v: Value, w: Value)
    requires w.Dict? && |w.members| == 2
    ensures Covers(v, w) <==> HasEqual(v, w.members[0]) && HasEqual(v, w.members[1])
  {
    hide PyEqual, Field;
  }

  lemma CoversThree(v: Value, w: Value)
    requires w.Dict? && |w.members| == 3
    ensures Covers(v, w) <==> HasEqual(v, w.members[0]) && HasEqual(v, w.members[1]) && HasEqual(v, w.members[2])
  {
    hide PyEqual, Field;
  }

  predicate HasEqual(v: Value, m: Member) { Field(v, m.key).Some? && PyEqual(Field(v, m.key).value, m.value) }

  lemma EqualStr(v: Value, k: Text, s: Text)
    ensures HasEqual(v, Member(k, Str(s))) <==> Field(v, k) == Some(Str(s))
  {
    hide Field;
    if Field(v, k).Some? { EqualToStr(Field(v, k).value, s); }
  }

  lemma EqualToStr(v: Value, s: Text)
    ensures PyEqual(v, Str(s)) <==> v == Str(s)
  {}

  lemma EqualToInt(v: Value, n: int)
    ensures v.Int? ==> (PyEqual(v, Int(n)) <==> v == Int(n))
  {}
}
