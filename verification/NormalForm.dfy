/** RFC 8785 canonical text: the normal form it depends on, and that it determines that form. */
module NormalForm {
  import Powers
  import opened Wrappers
  import opened Text
  import opened Binary64
  import opened Shortest
  import opened Numeral
  import opened Numbers
  import opened NumberLaws
  import opened KeyOrder
  import opened Json
  import opened JsonParser
  import opened JsonWriter
  import opened RoundTrip

  // ---------- sorting members ----------

  /** sorted(obj, key=_jcs_sort_key) is stable: an equal key goes before the later ones. */
  function Insert(m: Member, ms: seq<Member>): (r: seq<Member>)
    ensures |r| == |ms| + 1
  {
    if ms == [] then [m]
    else if KeyLess(ms[0].key, m.key) then [ms[0]] + Insert(m, ms[1..])
    else [m] + ms
  }

  function Sort(ms: seq<Member>): (r: seq<Member>)
    ensures |r| == |ms|
  {
    if ms == [] then [] else Insert(ms[0], Sort(ms[1..]))
  }

  lemma {:induction false} InsertKeeps(m: Member, ms: seq<Member>)
    ensures multiset(Insert(m, ms)) == multiset(ms) + multiset{m}
  {
    hide KeyLess;
    if ms != [] && KeyLess(ms[0].key, m.key) {
      InsertKeeps(m, ms[1..]);
      assert ms == [ms[0]] + ms[1..];
    }
  }

  /** Sorting rearranges. */
  lemma {:induction false} SortKeeps(ms: seq<Member>)
    ensures multiset(Sort(ms)) == multiset(ms)
  {
    if ms != [] {
      SortKeeps(ms[1..]);
      InsertKeeps(ms[0], Sort(ms[1..]));
      assert ms == [ms[0]] + ms[1..];
    }
  }

  predicate Sorted(ms: seq<Member>) {
    forall i, j | 0 <= i < j < |ms| :: KeyLess(ms[i].key, ms[j].key)
  }

  predicate PlainKeys(ms: seq<Member>) { forall i | 0 <= i < |ms| :: SurrogateFree(ms[i].key) }

  lemma SameMembers(a: seq<Member>, b: seq<Member>)
    requires multiset(a) == multiset(b)
    ensures forall m :: m in a <==> m in b
  {
    forall m ensures m in a <==> m in b {
      assert m in a <==> m in multiset(a);
      assert m in b <==> m in multiset(b);
    }
  }

  lemma {:induction false} InsertSorted(m: Member, ms: seq<Member>)
    requires Sorted(ms) && PlainKeys(ms) && SurrogateFree(m.key)
    requires forall i | 0 <= i < |ms| :: ms[i].key != m.key
    ensures Sorted(Insert(m, ms)) && PlainKeys(Insert(m, ms))
  {
    hide KeyLess;
    if ms != [] {
      KeyOrderTotal(ms[0].key, m.key);
      if KeyLess(ms[0].key, m.key) {
        var r := Insert(m, ms[1..]);
        InsertKeeps(m, ms[1..]);
        InsertSorted(m, ms[1..]);
        forall i | 0 <= i < |r| ensures KeyLess(ms[0].key, r[i].key) {
          assert r[i] in multiset(r);
          assert r[i] in ms[1..] || r[i] == m;
        }
      } else {
        forall i | 0 <= i < |ms| ensures KeyLess(m.key, ms[i].key) {
          if i > 0 { KeyOrderTransitive(m.key, ms[0].key, ms[i].key); }
        }
      }
    }
  }

  lemma {:induction false} SortSorted(ms: seq<Member>)
    requires UniqueKeys(ms) && PlainKeys(ms)
    ensures Sorted(Sort(ms)) && PlainKeys(Sort(ms))
  {
    if ms != [] {
      SortSorted(ms[1..]);
      var r := Sort(ms[1..]);
      SortKeeps(ms[1..]);
      SameMembers(r, ms[1..]);
      forall i | 0 <= i < |r| ensures r[i].key != ms[0].key {
        assert r[i] in ms[1..];
      }
      InsertSorted(ms[0], r);
    }
  }

  /** There is one sorted arrangement of the same members. */
  lemma {:induction false} SortedUnique(a: seq<Member>, b: seq<Member>)
    requires Sorted(a) && Sorted(b) && forall m :: m in a <==> m in b
    ensures a == b
  {
    hide KeyLess;
    assert (a != [] ==> a[0] in a) && (b != [] ==> b[0] in b);
    if a != [] && b != [] {
      assert a[0] in b && b[0] in a;
      var i :| 0 <= i < |b| && b[i] == a[0];
      var j :| 0 <= j < |a| && a[j] == b[0];
      Asymmetric(a[0].key, b[0].key);
      assert a[0] == b[0];
      forall m ensures m in a[1..] <==> m in b[1..] {
        Asymmetric(a[0].key, a[0].key);
        assert m in a <==> m == a[0] || m in a[1..];
        assert m in b <==> m == b[0] || m in b[1..];
      }
      SortedUnique(a[1..], b[1..]);
      assert a == [a[0]] + a[1..] && b == [b[0]] + b[1..];
    }
  }

  lemma Asymmetric(a: Text, b: Text)
    ensures !(KeyLess(a, b) && KeyLess(b, a)) && !KeyLess(a, a)
  {
    LexTotal(SortKey(a), SortKey(b));
  }

  lemma SortedKeysUnique(ms: seq<Member>)
    requires Sorted(ms)
    ensures UniqueKeys(ms)
  {
    hide KeyLess;
    forall i, j | 0 <= i < j < |ms| ensures ms[i].key != ms[j].key {
      Asymmetric(ms[i].key, ms[j].key);
    }
  }

  // ---------- the normal form ----------

  /** What canonicalisation keeps of a value: numbers as doubles without a signed zero, tuples
      as arrays, members in key order. None is what canonical_json raises on. */
  function Normalise(v: Value): Option<Value>
    decreases v, 0
  {
    match v
    case Null => Some(Null)
    case Bool(b) => Some(v)
    case Str(s) => if SurrogateFree(s) then Some(v) else None
    case Int(n) => var x :- IntToDouble(n); Some(Float(Unsigned(x)))
    case Float(x) => if x.Finite? then Some(Float(Unsigned(x))) else None
    case Dict(ms) => var ns :- NormaliseMembers(ms); Some(Dict(Sort(ns)))
    case List(xs) => var ys :- NormaliseItems(xs); Some(List(ys))
    case Tuple(xs) => var ys :- NormaliseItems(xs); Some(List(ys))
    case Opaque => None
  }

  function NormaliseItems(xs: seq<Value>): Option<seq<Value>>
    decreases xs, 1
  {
    if xs == [] then Some([])
    else
      var y :- Normalise(xs[0]);
      var ys :- NormaliseItems(xs[1..]);
      Some([y] + ys)
  }

  function NormaliseMember(m: Member): Option<Member>
    decreases m, 1
  {
    if !SurrogateFree(m.key) then None
    else
      var w :- Normalise(m.value);
      Some(Member(m.key, w))
  }

  function NormaliseMembers(ms: seq<Member>): Option<seq<Member>>
    decreases ms, 1
  {
    if ms == [] then Some([])
    else
      var n :- NormaliseMember(ms[0]);
      var ns :- NormaliseMembers(ms[1..]);
      Some([n] + ns)
  }

  /** Items are normalised one by one, and none may fail. */
  lemma {:induction false} ItemsNormal(xs: seq<Value>)
    ensures var r := NormaliseItems(xs);
      && (r.Some? <==> forall i | 0 <= i < |xs| :: Normalise(xs[i]).Some?)
      && (r.Some? ==> |r.value| == |xs| && forall i | 0 <= i < |xs| :: Normalise(xs[i]) == Some(r.value[i]))
  {
    hide Normalise;
    if xs != [] {
      ItemsNormal(xs[1..]);
      assert forall i | 0 <= i < |xs| :: xs[i] == if i == 0 then xs[0] else xs[1..][i - 1];
    }
  }

  lemma {:induction false} MembersNormal(ms: seq<Member>)
    ensures var r := NormaliseMembers(ms);
      && (r.Some? <==> forall i | 0 <= i < |ms| :: NormaliseMember(ms[i]).Some?)
      && (r.Some? ==> |r.value| == |ms| && forall i | 0 <= i < |ms| :: NormaliseMember(ms[i]) == Some(r.value[i]))
  {
    hide NormaliseMember;
    if ms != [] {
      MembersNormal(ms[1..]);
      assert forall i | 0 <= i < |ms| :: ms[i] == if i == 0 then ms[0] else ms[1..][i - 1];
    }
  }

  /** The canonical text, the specification of _jcs_render. */
  function Canonical(repr: Repr, v: Value): Option<Text> {
    var w :- Normalise(v);
    Some(Write(Jcs(repr), w))
  }

  predicate IsNormal(w: Value) {
    match w
    case Null => true
    case Bool(_) => true
    case Str(s) => SurrogateFree(s)
    case Float(x) => x.Finite? && x == Unsigned(x)
    case Dict(ms) => Sorted(ms) && PlainKeys(ms) && forall i | 0 <= i < |ms| :: IsNormal(ms[i].value)
    case List(xs) => forall i | 0 <= i < |xs| :: IsNormal(xs[i])
    case _ => false
  }

  lemma {:induction false} NormaliseIsNormal(v: Value)
    requires Proper(v) && Normalise(v).Some?
    ensures IsNormal(Normalise(v).value)
  {
    hide Sorted, Sort;
    match v
    case Dict(ms) =>
      MembersNormal(ms);
      var ns := NormaliseMembers(ms).value;
      forall i | 0 <= i < |ms| ensures IsNormal(ns[i].value) && SurrogateFree(ns[i].key) && ns[i].key == ms[i].key {
        assert NormaliseMember(ms[i]) == Some(ns[i]);
        NormaliseIsNormal(ms[i].value);
      }
      SortedIsNormal(ns);
    case List(xs) =>
      ItemsNormal(xs);
      forall i | 0 <= i < |xs| { NormaliseIsNormal(xs[i]); }
    case Tuple(xs) =>
      ItemsNormal(xs);
      forall i | 0 <= i < |xs| { NormaliseIsNormal(xs[i]); }
    case _ =>
  }

  lemma SortedIsNormal(ns: seq<Member>)
    requires UniqueKeys(ns) && PlainKeys(ns) && forall i | 0 <= i < |ns| :: IsNormal(ns[i].value)
    ensures IsNormal(Dict(Sort(ns)))
  {
    hide Sort, Sorted, UniqueKeys;
    SortSorted(ns);
    SortKeeps(ns);
    SameMembers(ns, Sort(ns));
    forall i | 0 <= i < |ns| ensures IsNormal(Sort(ns)[i].value) {
      assert Sort(ns)[i] in ns;
    }
  }

  /** A normal value is written and read without merging keys. */
  lemma {:induction false} NormalWritable(repr: Repr, w: Value)
    requires IsNormal(w)
    ensures Writable(Jcs(repr), w) && WireUnique(Jcs(repr), w)
  {
    hide Sorted;
    match w
    case Dict(ms) =>
      SortedKeysUnique(ms);
      forall i | 0 <= i < |ms| { NormalWritable(repr, ms[i].value); }
    case List(xs) => forall i | 0 <= i < |xs| { NormalWritable(repr, xs[i]); }
    case _ =>
  }

  /** Reading the canonical text of a normal value gives a value with that normal form. */
  lemma {:induction false} NormalWire(repr: Repr, w: Value)
    requires IsNormal(w) && ReprLaw(repr)
    ensures var u := Wire(Jcs(repr), w); Proper(u) && Normalise(u) == Some(w)
  {
    hide Sorted, Sort, ReprLaw;
    var style := Jcs(repr);
    match w
    case Float(x) => FloatWire(style, x);
    case Dict(ms) =>
      var us := WireMembers(style, ms);
      forall i | 0 <= i < |ms| ensures us[i].key == ms[i].key && NormaliseMember(us[i]) == Some(ms[i]) && Proper(us[i].value) {
        NormalWire(repr, ms[i].value);
      }
      WireDict(ms, us);
    case List(xs) =>
      var us := WireItems(style, xs);
      forall i | 0 <= i < |xs| ensures Normalise(us[i]) == Some(xs[i]) && Proper(us[i]) {
        NormalWire(repr, xs[i]);
      }
      ItemsNormal(us);
      assert NormaliseItems(us).value == xs;
    case _ =>
  }

  lemma ProperMembers(us: seq<Member>)
    requires UniqueKeys(us) && forall i | 0 <= i < |us| :: Proper(us[i].value)
    ensures Proper(Dict(us))
  {}

  lemma SortIsIdentity(ms: seq<Member>)
    requires Sorted(ms) && PlainKeys(ms)
    ensures Sort(ms) == ms
  {
    hide Sort, Sorted;
    SortedKeysUnique(ms);
    SortSorted(ms);
    SortKeeps(ms);
    SameMembers(ms, Sort(ms));
    SortedUnique(ms, Sort(ms));
  }

  lemma WireDict(ms: seq<Member>, us: seq<Member>)
    requires Sorted(ms) && PlainKeys(ms) && |us| == |ms|
    requires forall i | 0 <= i < |ms| :: us[i].key == ms[i].key && NormaliseMember(us[i]) == Some(ms[i]) && Proper(us[i].value)
    ensures FromPairs(us) == us && Proper(Dict(us)) && Normalise(Dict(us)) == Some(Dict(ms))
  {
    hide NormaliseMember, Sort, Sorted, Normalise, FromPairs, PlainKeys;
    SortedKeysUnique(ms);
    assert UniqueKeys(us);
    FromUniquePairs(us);
    ProperMembers(us);
    NormaliseDict(us);
    MembersNormal(us);
    assert NormaliseMembers(us).value == ms;
    SortIsIdentity(ms);
  }

  lemma FloatWire(style: Style, x: Double)
    requires style.Jcs? && ReprLaw(style.repr) && x.Finite? && x == Unsigned(x)
    ensures var u := WireFloat(style, x); (u.Int? || u.Float?) && Normalise(u) == Some(Float(x))
  {
    hide ScanNumber, NumOf;
    var n := WireClosure(style.repr, x, []);
  }

  // ---------- main results ----------

  /** Canonical text determines the value: json.loads, with or without the duplicate check,
      reads it to a value with the same normal form, which canonicalises to the same text. */
  lemma CanonicalReadsBack(repr: Repr, unique: bool, v: Value) returns (u: Value)
    requires Proper(v) && ReprLaw(repr) && Canonical(repr, v).Some?
    ensures Loads(unique, Canonical(repr, v).value) == Some(u)
    ensures Proper(u) && Normalise(u) == Normalise(v) && Canonical(repr, u) == Canonical(repr, v)
  {
    hide Loads, Write, Wire, IsNormal;
    var w := Normalise(v).value;
    NormaliseIsNormal(v);
    NormalWritable(repr, w);
    LoadsBack(unique, Jcs(repr), w);
    NormalWire(repr, w);
    u := Wire(Jcs(repr), w);
  }

  /** Two values have the same canonical text exactly when they have the same normal form. */
  lemma CanonicalInjective(repr: Repr, v: Value, w: Value)
    requires Proper(v) && Proper(w) && ReprLaw(repr)
    requires Normalise(v).Some? && Normalise(w).Some?
    ensures Canonical(repr, v) == Canonical(repr, w) <==> Normalise(v) == Normalise(w)
  {
    hide Loads, Write, Normalise;
    var a := CanonicalReadsBack(repr, false, v);
    var b := CanonicalReadsBack(repr, false, w);
  }

  /** The insertion order of an object's members never matters. */
  lemma OrderIrrelevant(ms: seq<Member>, ns: seq<Member>)
    requires UniqueKeys(ms) && UniqueKeys(ns) && forall m :: m in ms <==> m in ns
    ensures Normalise(Dict(ms)) == Normalise(Dict(ns))
  {
    hide Sort, Sorted, Normalise;
    NormalisedMembers(ms, ns);
    NormalisedMembers(ns, ms);
    if NormaliseMembers(ms).Some? {
      var a, b := NormaliseMembers(ms).value, NormaliseMembers(ns).value;
      NormalisedKeys(ms);
      NormalisedKeys(ns);
      SortSorted(a);
      SortSorted(b);
      SortKeeps(a);
      SameMembers(a, Sort(a));
      SortKeeps(b);
      SameMembers(b, Sort(b));
      SortedUnique(Sort(a), Sort(b));
    }
    NormaliseDict(ms);
    NormaliseDict(ns);
  }

  lemma NormaliseDict(ms: seq<Member>)
    ensures Normalise(Dict(ms)) == if NormaliseMembers(ms).Some? then Some(Dict(Sort(NormaliseMembers(ms).value))) else None
  {}

  lemma NormalisedKeys(ms: seq<Member>)
    requires UniqueKeys(ms) && NormaliseMembers(ms).Some?
    ensures UniqueKeys(NormaliseMembers(ms).value) && PlainKeys(NormaliseMembers(ms).value)
  {
    MembersNormal(ms);
    var ns := NormaliseMembers(ms).value;
    forall i | 0 <= i < |ms| ensures ns[i].key == ms[i].key && SurrogateFree(ns[i].key) {
      assert NormaliseMember(ms[i]) == Some(ns[i]);
    }
  }

  lemma NormalisedMembers(ms: seq<Member>, ns: seq<Member>)
    requires forall m :: m in ns ==> m in ms
    ensures NormaliseMembers(ms).Some? ==> NormaliseMembers(ns).Some?
    ensures NormaliseMembers(ms).Some? ==>
      forall m :: m in NormaliseMembers(ns).value ==> m in NormaliseMembers(ms).value
  {
    hide NormaliseMember;
    MembersNormal(ms);
    MembersNormal(ns);
    if NormaliseMembers(ms).Some? {
      var a := NormaliseMembers(ms).value;
      forall i | 0 <= i < |ns| ensures NormaliseMember(ns[i]).Some? && NormaliseMember(ns[i]).value in a {
        assert ns[i] in ms;
        var j :| 0 <= j < |ms| && ms[j] == ns[i];
        assert NormaliseMember(ms[j]) == Some(a[j]);
      }
    }
  }

  // ---------- plain JSON ----------

  lemma {:induction false} JoinedPlain(s: Text)
    requires SurrogateFree(s)
    ensures Joined(s) == s
  {
    if s != [] {
      JoinedPlain(s[1..]);
      assert s == [s[0]] + s[1..];
    }
  }

  /** What can be canonicalised survives json.dumps with its normal form. */
  lemma {:induction false} PlainWire(repr: Repr, v: Value)
    requires Proper(v) && Normalise(v).Some?
    ensures var style := Plain(repr); var u := Wire(style, v);
      Writable(style, v) && WireUnique(style, v) && Proper(u) && Normalise(u) == Normalise(v)
  {
    hide Sort;
    var style := Plain(repr);
    match v
    case Str(s) => JoinedPlain(s);
    case Float(x) => PlainWireFloat(style, x);
    case Dict(ms) =>
      var us := WireMembers(style, ms);
      MembersNormal(ms);
      forall i | 0 <= i < |ms|
        ensures NormaliseMember(us[i]) == NormaliseMember(ms[i]) && us[i].key == ms[i].key && Proper(us[i].value)
        ensures Writable(style, ms[i].value) && WireUnique(style, ms[i].value)
      {
        assert NormaliseMember(ms[i]).Some?;
        JoinedPlain(ms[i].key);
        PlainWire(repr, ms[i].value);
      }
      assert UniqueKeys(us);
      FromUniquePairs(us);
      MembersNormal(us);
      assert NormaliseMembers(us).value == NormaliseMembers(ms).value;
    case List(xs) => PlainWireItems(repr, v, xs);
    case Tuple(xs) => PlainWireItems(repr, v, xs);
    case _ =>
  }

  lemma {:induction false} PlainWireItems(repr: Repr, v: Value, xs: seq<Value>)
    requires v == List(xs) || v == Tuple(xs)
    requires Proper(v) && Normalise(v).Some?
    ensures var style := Plain(repr); var u := Wire(style, v);
      Writable(style, v) && WireUnique(style, v) && Proper(u) && Normalise(u) == Normalise(v)
    decreases v, 0
  {
    var style := Plain(repr);
    var us := WireItems(style, xs);
    ItemsNormal(xs);
    forall i | 0 <= i < |xs|
      ensures Normalise(us[i]) == Normalise(xs[i]) && Proper(us[i])
      ensures Writable(style, xs[i]) && WireUnique(style, xs[i])
    {
      assert Normalise(xs[i]).Some?;
      PlainWire(repr, xs[i]);
    }
    ItemsNormal(us);
    assert NormaliseItems(us).value == NormaliseItems(xs).value;
  }

  /** json.dumps then json.loads keeps the canonical text of everything that has one. */
  lemma PlainReadsBack(repr: Repr, unique: bool, v: Value) returns (u: Value)
    requires Proper(v) && ReprLaw(repr) && Canonical(repr, v).Some?
    ensures Dumps(repr, v).Some? && Loads(unique, Dumps(repr, v).value) == Some(u)
    ensures Proper(u) && Normalise(u) == Normalise(v) && Canonical(repr, u) == Canonical(repr, v)
  {
    hide Loads, Write, Wire, Writable, WireUnique, Normalise;
    PlainWire(repr, v);
    LoadsBack(unique, Plain(repr), v);
    u := Wire(Plain(repr), v);
  }

  // ---------- the constructors' number guard ----------

  /** _check_application_numbers. */
  predicate Guarded(v: Value) {
    match v
    case Int(n) => ExactInteger(n)
    case Dict(ms) => forall i | 0 <= i < |ms| :: Guarded(ms[i].value)
    case List(xs) => forall i | 0 <= i < |xs| :: Guarded(xs[i])
    case Tuple(xs) => forall i | 0 <= i < |xs| :: Guarded(xs[i])
    case _ => true
  }

  /** x is v or is somewhere inside it; a key counts as a string. */
  predicate Occurs(x: Value, v: Value) {
    || x == v
    || match v
       case Dict(ms) => exists i | 0 <= i < |ms| :: x == Str(ms[i].key) || Occurs(x, ms[i].value)
       case List(xs) => exists i | 0 <= i < |xs| :: Occurs(x, xs[i])
       case Tuple(xs) => exists i | 0 <= i < |xs| :: Occurs(x, xs[i])
       case _ => false
  }

  /** The guard refuses a value exactly for an integer somewhere in it that is no binary64 value. */
  lemma {:induction false} GuardMeans(v: Value)
    ensures Guarded(v) <==> forall n: int | Occurs(Int(n), v) :: Representable(n)
  {
    hide ExactInteger, Representable;
    match v
    case Int(n) =>
      GuardExact(n);
    case Dict(ms) =>
      forall i | 0 <= i < |ms|
        ensures Guarded(ms[i].value) <==> forall n: int | Occurs(Int(n), ms[i].value) :: Representable(n)
      {
        GuardMeans(ms[i].value);
      }
    case List(xs) =>
      forall i | 0 <= i < |xs| ensures Guarded(xs[i]) <==> forall n: int | Occurs(Int(n), xs[i]) :: Representable(n) {
        GuardMeans(xs[i]);
      }
    case Tuple(xs) =>
      forall i | 0 <= i < |xs| ensures Guarded(xs[i]) <==> forall n: int | Occurs(Int(n), xs[i]) :: Representable(n) {
        GuardMeans(xs[i]);
      }
    case _ =>
  }

  /** What canonical_json takes as part of a value. */
  predicate Renderable(x: Value) {
    match x
    case Str(s) => SurrogateFree(s)
    case Int(n) => AbsInt(n) < Powers.Pow(2, 1024) - Powers.Pow(2, 970)
    case Float(f) => f.Finite?
    case Opaque => false
    case _ => true
  }

  lemma LeafRenders(v: Value)
    requires !v.Dict? && !v.List? && !v.Tuple?
    ensures Normalise(v).Some? <==> Renderable(v)
  {
    if v.Int? { IntegerRange(v.n); }
    hide Powers.Pow, IntToDouble;
  }

  lemma {:induction false} NormalExists(v: Value)
    ensures Normalise(v).Some? <==> forall x | Occurs(x, v) :: Renderable(x)
    decreases v, 1
  {
    hide Normalise, Renderable;
    match v
    case Dict(ms) =>
      DictRenders(v);
      NormaliseDict(ms);
      MembersNormal(ms);
      forall i | 0 <= i < |ms|
        ensures NormaliseMember(ms[i]).Some? <==>
          Renderable(Str(ms[i].key)) && forall x | Occurs(x, ms[i].value) :: Renderable(x)
      {
        NormalExists(ms[i].value);
        LeafRenders(Str(ms[i].key));
        StringNormal(ms[i].key);
      }
      hide NormaliseMember, NormaliseMembers;
    case List(xs) => ItemsExist(v, xs);
    case Tuple(xs) => ItemsExist(v, xs);
    case _ => LeafRenders(v);
  }

  lemma StringNormal(s: Text)
    ensures Normalise(Str(s)).Some? <==> SurrogateFree(s)
  {}

  lemma DictRenders(v: Value)
    ensures v.Dict? || v.List? || v.Tuple? ==> Renderable(v)
  {}

  lemma {:induction false} ItemsExist(v: Value, xs: seq<Value>)
    requires v == List(xs) || v == Tuple(xs)
    ensures Normalise(v).Some? <==> forall x | Occurs(x, v) :: Renderable(x)
    decreases v, 0
  {
    hide Renderable;
    DictRenders(v);
    ItemsNormal(xs);
    assert Normalise(v).Some? <==> NormaliseItems(xs).Some?;
    hide Normalise, NormaliseItems;
    forall i | 0 <= i < |xs| ensures Normalise(xs[i]).Some? <==> forall x | Occurs(x, xs[i]) :: Renderable(x) {
      NormalExists(xs[i]);
    }
  }

  /** canonical_json raises exactly on a lone surrogate, an integer of 2^1024 - 2^970 or more in
      magnitude, a float that is not finite, or a foreign object, wherever it is in the value. */
  lemma CanonicalExists(repr: Repr, v: Value)
    ensures Canonical(repr, v).Some? <==> forall x | Occurs(x, v) :: Renderable(x)
  {
    hide Normalise, Renderable, Occurs, Write;
    NormalExists(v);
  }

  /** json.dumps raises exactly on a foreign object, wherever it is in the value. */
  lemma {:induction false} DumpsExists(repr: Repr, v: Value)
    ensures Dumps(repr, v).Some? <==> !Occurs(Opaque, v)
  {
    match v
    case Dict(ms) =>
      forall i | 0 <= i < |ms| ensures Writable(Plain(repr), ms[i].value) <==> !Occurs(Opaque, ms[i].value) {
        DumpsExists(repr, ms[i].value);
      }
    case List(xs) =>
      forall i | 0 <= i < |xs| ensures Writable(Plain(repr), xs[i]) <==> !Occurs(Opaque, xs[i]) {
        DumpsExists(repr, xs[i]);
      }
    case Tuple(xs) =>
      forall i | 0 <= i < |xs| ensures Writable(Plain(repr), xs[i]) <==> !Occurs(Opaque, xs[i]) {
        DumpsExists(repr, xs[i]);
      }
    case _ =>
  }

  /** v and w differ at most in their integers. */
  predicate SameButIntegers(v: Value, w: Value) {
    match v
    case Int(n) => w.Int?
    case Dict(ms) => w.Dict? && |ms| == |w.members| && forall i | 0 <= i < |ms| ::
      ms[i].key == w.members[i].key && SameButIntegers(ms[i].value, w.members[i].value)
    case List(xs) => w.List? && |xs| == |w.items| && forall i | 0 <= i < |xs| :: SameButIntegers(xs[i], w.items[i])
    case Tuple(xs) => w.Tuple? && |xs| == |w.items| && forall i | 0 <= i < |xs| :: SameButIntegers(xs[i], w.items[i])
    case _ => v == w
  }

  lemma {:induction false} GuardSeparatesNormal(v: Value, w: Value)
    requires Proper(v) && Proper(w) && Guarded(v) && Guarded(w) && SameButIntegers(v, w)
    requires Normalise(v).Some? && Normalise(v) == Normalise(w)
    ensures v == w
  {
    hide Sort, Sorted, ExactInteger;
    match v
    case Int(n) =>
      UnsignedInt(n);
      UnsignedInt(w.n);
      GuardInjective(n, w.n);
    case Dict(ms) =>
      SameNormalMembers(ms, w.members);
      forall i | 0 <= i < |ms| ensures ms[i] == w.members[i] {
        GuardSeparatesNormal(ms[i].value, w.members[i].value);
      }
    case List(xs) =>
      ItemsNormal(xs);
      ItemsNormal(w.items);
      forall i | 0 <= i < |xs| ensures xs[i] == w.items[i] { GuardSeparatesNormal(xs[i], w.items[i]); }
    case Tuple(xs) =>
      ItemsNormal(xs);
      ItemsNormal(w.items);
      forall i | 0 <= i < |xs| ensures xs[i] == w.items[i] { GuardSeparatesNormal(xs[i], w.items[i]); }
    case _ =>
  }

  /** Objects with the same keys in the same places and the same normal form agree member by member. */
  lemma SameNormalMembers(ms: seq<Member>, ns: seq<Member>)
    requires UniqueKeys(ms) && |ms| == |ns| && forall i | 0 <= i < |ms| :: ms[i].key == ns[i].key
    requires Normalise(Dict(ms)).Some? && Normalise(Dict(ms)) == Normalise(Dict(ns))
    ensures forall i | 0 <= i < |ms| :: Normalise(ms[i].value).Some? && Normalise(ms[i].value) == Normalise(ns[i].value)
  {
    hide Sort, Normalise, NormaliseMember;
    NormaliseDict(ms);
    NormaliseDict(ns);
    MembersNormal(ms);
    var a, b := NormaliseMembers(ms).value, NormaliseMembers(ns).value;
    SortKeeps(a);
    SameMembers(a, Sort(a));
    SortKeeps(b);
    SameMembers(b, Sort(b));
    forall i | 0 <= i < |ms| ensures Normalise(ms[i].value).Some? && Normalise(ms[i].value) == Normalise(ns[i].value) {
      assert a[i] in a;
      SameNormalMember(ms, ns, b, i, a[i]);
    }
  }

  lemma SameNormalMember(ms: seq<Member>, ns: seq<Member>, b: seq<Member>, i: nat, n: Member)
    requires UniqueKeys(ms) && |ms| == |ns| && forall i | 0 <= i < |ms| :: ms[i].key == ns[i].key
    requires NormaliseMembers(ns) == Some(b) && n in b
    requires i < |ms| && NormaliseMember(ms[i]) == Some(n)
    ensures Normalise(ms[i].value).Some? && Normalise(ms[i].value) == Normalise(ns[i].value)
  {
    hide Normalise;
    MembersNormal(ns);
    var j :| 0 <= j < |b| && b[j] == n;
    assert NormaliseMember(ns[j]) == Some(b[j]);
    assert ms[i].key == ms[j].key;
  }

  lemma UnsignedInt(n: int)
    ensures IntToDouble(n).Some? ==> Unsigned(IntToDouble(n).value) == IntToDouble(n).value
  {
    hide RoundUnbounded;
    if n != 0 && Round(AbsInt(n) as real).Some? {
      PositiveInteger(AbsInt(n));
    }
  }

  /** A positive integer does not round to zero. */
  lemma PositiveInteger(a: nat)
    requires 0 < a
    ensures RoundUnbounded(a as real).mant != 0
  {
    hide RoundUnbounded;
    IntegerValue(1);
    RoundMono(1.0, a as real);
    if RoundUnbounded(a as real).mant == 0 {
      ZeroMagnitude(RoundUnbounded(a as real));
    }
  }

  lemma ZeroMagnitude(m: Magnitude)
    requires m.mant == 0
    ensures m.Value() == 0.0
  {
    hide Powers.Shift;
    Powers.ShiftOrder(m.mant as real, 0.0, 2, m.exp);
  }

  /** Two guarded values that differ only in integers never share a canonical text. */
  lemma GuardSeparates(repr: Repr, v: Value, w: Value)
    requires Proper(v) && Proper(w) && ReprLaw(repr)
    requires Guarded(v) && Guarded(w) && SameButIntegers(v, w)
    requires Canonical(repr, v).Some? && Canonical(repr, v) == Canonical(repr, w)
    ensures v == w
  {
    hide Normalise, Guarded, Proper, SameButIntegers, Write;
    CanonicalInjective(repr, v, w);
    GuardSeparatesNormal(v, w);
  }
}
