/** Python values as JSON sees them, and dictionaries with their insertion order. */
module Json {
  import opened Wrappers
  import opened Text
  import opened Binary64

  /** Opaque stands for every type that JSON has no form for. */
  datatype Value =
    | Null
    | Bool(b: bool)
    | Str(s: Text)
    | Int(n: int)
    | Float(x: Double)
    | Dict(members: seq<Member>)
    | List(items: seq<Value>)
    | Tuple(items: seq<Value>)
    | Opaque

  datatype Member = Member(key: Text, value: Value)

  // ---------- dictionaries ----------

  predicate UniqueKeys(ms: seq<Member>) {
    forall i, j | 0 <= i < j < |ms| :: ms[i].key != ms[j].key
  }

  function Get(ms: seq<Member>, k: Text): Option<Value> {
    if ms == [] then None
    else if ms[0].key == k then Some(ms[0].value)
    else Get(ms[1..], k)
  }

  predicate HasKey(ms: seq<Member>, k: Text) { Get(ms, k).Some? }

  /** d[k] = v: an existing key keeps its place. */
  function Put(ms: seq<Member>, k: Text, v: Value): seq<Member> {
    if ms == [] then [Member(k, v)]
    else if ms[0].key == k then [Member(k, v)] + ms[1..]
    else [ms[0]] + Put(ms[1..], k, v)
  }

  /** dict(pairs). */
  function FromPairs(ps: seq<Member>): (r: seq<Member>)
    ensures UniqueKeys(r)
    ensures forall m | m in r :: m in ps
  {
    if ps == [] then []
    else
      PutKeeps(FromPairs(ps[..|ps| - 1]), ps[|ps| - 1].key, ps[|ps| - 1].value);
      Put(FromPairs(ps[..|ps| - 1]), ps[|ps| - 1].key, ps[|ps| - 1].value)
  }

  // ---------- laws ----------

  /** A key is found exactly when some member has it, and what is found is such a member's. */
  lemma {:induction false} GetFinds(ms: seq<Member>, k: Text)
    ensures Get(ms, k).Some? ==> Member(k, Get(ms, k).value) in ms
    ensures Get(ms, k).None? ==> forall i | 0 <= i < |ms| :: ms[i].key != k
  {
    if ms != [] && ms[0].key != k { GetFinds(ms[1..], k); }
  }

  /** Writing a key adds at most that member, and a new key at the end. */
  lemma {:induction false} PutKeeps(ms: seq<Member>, k: Text, v: Value)
    ensures UniqueKeys(ms) ==> UniqueKeys(Put(ms, k, v))
    ensures forall m | m in Put(ms, k, v) :: m in ms || m == Member(k, v)
    ensures !HasKey(ms, k) ==> Put(ms, k, v) == ms + [Member(k, v)]
  {
    if ms != [] && ms[0].key != k {
      PutKeeps(ms[1..], k, v);
      var t := Put(ms[1..], k, v);
      assert forall i | 0 <= i < |t| :: t[i] in t;
      assert ms == [ms[0]] + ms[1..];
    }
  }

  lemma {:induction false} GetUnique(ms: seq<Member>, m: Member)
    requires UniqueKeys(ms) && m in ms
    ensures Get(ms, m.key) == Some(m.value)
  {
    if ms[0].key == m.key {
      var i :| 0 <= i < |ms| && ms[i] == m;
      assert i == 0;
    } else {
      GetUnique(ms[1..], m);
    }
  }

  lemma {:induction false} GetPut(ms: seq<Member>, k: Text, v: Value, k': Text)
    ensures Get(Put(ms, k, v), k') == if k == k' then Some(v) else Get(ms, k')
  {
    if ms != [] && ms[0].key != k {
      GetPut(ms[1..], k, v, k');
      assert ([ms[0]] + Put(ms[1..], k, v))[1..] == Put(ms[1..], k, v);
    } else if ms != [] {
      assert ([Member(k, v)] + ms[1..])[1..] == ms[1..];
    }
  }

  /** Writing a key twice is writing it once; restoring the value restores the dictionary. */
  lemma {:induction false} PutPut(ms: seq<Member>, k: Text, v: Value, w: Value)
    ensures Put(Put(ms, k, v), k, w) == Put(ms, k, w)
    ensures Get(ms, k) == Some(w) ==> Put(ms, k, w) == ms
  {
    if ms == [] {
    } else if ms[0].key == k {
      assert ([Member(k, v)] + ms[1..])[1..] == ms[1..];
      assert ms == [ms[0]] + ms[1..];
    } else {
      PutPut(ms[1..], k, v, w);
      assert ([ms[0]] + Put(ms[1..], k, v))[1..] == Put(ms[1..], k, v);
      assert ms == [ms[0]] + ms[1..];
    }
  }

  /** Pairs without repeated keys are their own dictionary. */
  lemma {:induction false} FromUniquePairs(ps: seq<Member>)
    requires UniqueKeys(ps)
    ensures FromPairs(ps) == ps
  {
    if ps != [] {
      hide Put;
      var init, m := ps[..|ps| - 1], ps[|ps| - 1];
      FromUniquePairs(init);
      GetFinds(init, m.key);
      PutKeeps(init, m.key, m.value);
      assert ps == init + [m];
    }
  }

  /** Every dictionary inside v has distinct keys, as Python's have. */
  predicate Proper(v: Value) {
    match v
    case Dict(ms) => UniqueKeys(ms) && forall i | 0 <= i < |ms| :: Proper(ms[i].value)
    case List(xs) => forall i | 0 <= i < |xs| :: Proper(xs[i])
    case Tuple(xs) => forall i | 0 <= i < |xs| :: Proper(xs[i])
    case _ => true
  }

  /** d.get(k) on a value that may not be a dictionary. */
  function Field(v: Value, k: Text): Option<Value> {
    if v.Dict? then Get(v.members, k) else None
  }

  /** The None that d.get gives for an absent key. */
  function OrNull(o: Option<Value>): Value { if o.Some? then o.value else Null }

  lemma FieldProper(v: Value, k: Text)
    requires Proper(v) && Field(v, k).Some?
    ensures Proper(Field(v, k).value)
  {
    GetFinds(v.members, k);
    var m := Member(k, Field(v, k).value);
    var i :| 0 <= i < |v.members| && v.members[i] == m;
  }
}
