/** Which values json.dumps and json.loads give back unchanged. */
module Faithful {
  import opened Wrappers
  import opened Text
  import opened Numbers
  import opened Json
  import opened JsonParser
  import opened JsonWriter
  import opened RoundTrip

  /** A lone high surrogate directly before a lone low one. */
  predicate SplitPair(s: Text) {
    exists i | 0 <= i < |s| - 1 :: IsHigh(s[i]) && IsLow(s[i + 1])
  }

  lemma {:induction false} JoinedLength(s: Text)
    ensures |Joined(s)| <= |s|
    ensures |Joined(s)| == |s| <==> Joined(s) == s
    ensures Joined(s) == s <==> !SplitPair(s)
    decreases |s|
  {
    if s == [] {
    } else if 2 <= |s| && IsHigh(s[0]) && IsLow(s[1]) {
      JoinedLength(s[2..]);
    } else {
      var t := s[1..];
      JoinedLength(t);
      assert s == [s[0]] + t;
      if SplitPair(s) {
        var i :| 0 <= i < |s| - 1 && IsHigh(s[i]) && IsLow(s[i + 1]);
        assert i != 0;
        assert IsHigh(t[i - 1]) && IsLow(t[i]);
      }
      if SplitPair(t) {
        var i :| 0 <= i < |t| - 1 && IsHigh(t[i]) && IsLow(t[i + 1]);
        assert IsHigh(s[i + 1]) && IsLow(s[i + 2]);
      }
    }
  }

  /** No tuple, and no text or key with a split pair. */
  predicate WireStable(v: Value) {
    match v
    case Str(s) => !SplitPair(s)
    case Dict(ms) => forall i | 0 <= i < |ms| :: !SplitPair(ms[i].key) && WireStable(ms[i].value)
    case List(xs) => forall i | 0 <= i < |xs| :: WireStable(xs[i])
    case Tuple(_) => false
    case _ => true
  }

  lemma {:induction false} FromPairsLength(ps: seq<Member>)
    ensures |FromPairs(ps)| <= |ps|
    ensures |FromPairs(ps)| == |ps| ==> UniqueKeys(ps)
  {
    hide Put, HasKey, UniqueKeys, FromPairs;
    if ps == [] {
      NoPairs();
    } else {
      var init, m := ps[..|ps| - 1], ps[|ps| - 1];
      FromPairsStep(ps);
      FromPairsLength(init);
      PutLength(FromPairs(init), m.key, m.value);
      if |FromPairs(ps)| == |ps| { AddPair(ps); }
    }
  }

  lemma AddPair(ps: seq<Member>)
    requires ps != [] && UniqueKeys(ps[..|ps| - 1]) && !HasKey(FromPairs(ps[..|ps| - 1]), ps[|ps| - 1].key)
    ensures UniqueKeys(ps)
  {
    hide HasKey, UniqueKeys, FromPairs;
    var init, m := ps[..|ps| - 1], ps[|ps| - 1];
    FromUniquePairs(init);
    AddKey(init, m);
    assert ps == init + [m];
  }

  lemma NoPairs()
    ensures FromPairs([]) == [] && UniqueKeys([])
  {}

  lemma FromPairsStep(ps: seq<Member>)
    requires ps != []
    ensures FromPairs(ps) == Put(FromPairs(ps[..|ps| - 1]), ps[|ps| - 1].key, ps[|ps| - 1].value)
  {
    hide Put;
  }

  lemma AddKey(ms: seq<Member>, m: Member)
    requires UniqueKeys(ms) && !HasKey(ms, m.key)
    ensures UniqueKeys(ms + [m])
  {
    GetFinds(ms, m.key);
  }

  lemma {:induction false} PutLength(ms: seq<Member>, k: Text, v: Value)
    ensures |Put(ms, k, v)| == |ms| + if HasKey(ms, k) then 0 else 1
  {
    if ms != [] && ms[0].key != k { PutLength(ms[1..], k, v); }
  }

  /** json.loads(json.dumps(v)) is v exactly when v has no tuple and no split surrogate pair. */
  lemma {:induction false} FaithfulWire(repr: Repr, v: Value)
    requires Proper(v)
    ensures Wire(Plain(repr), v) == v <==> WireStable(v)
  {
    var style := Plain(repr);
    match v
    case Str(s) => JoinedLength(s);
    case Dict(ms) =>
      var ps := WireMembers(style, ms);
      forall i | 0 <= i < |ms| ensures ps[i] == ms[i] <==> !SplitPair(ms[i].key) && WireStable(ms[i].value) {
        JoinedLength(ms[i].key);
        FaithfulWire(repr, ms[i].value);
      }
      SameDict(ms, ps);
    case List(xs) =>
      forall i | 0 <= i < |xs| ensures Wire(style, xs[i]) == xs[i] <==> WireStable(xs[i]) {
        FaithfulWire(repr, xs[i]);
      }
    case _ =>
  }

  lemma SameDict(ms: seq<Member>, ps: seq<Member>)
    requires UniqueKeys(ms) && |ms| == |ps|
    ensures FromPairs(ps) == ms <==> ps == ms
  {
    FromPairsLength(ps);
    if UniqueKeys(ps) { FromUniquePairs(ps); }
  }

  /** So a JSON text comes back as the same value, and every other value comes back changed. */
  lemma FaithfulLoads(repr: Repr, v: Value)
    requires ReprLaw(repr) && Proper(v) && Writable(Plain(repr), v)
    ensures Dumps(repr, v).Some?
    ensures Loads(false, Dumps(repr, v).value) == Some(v) <==> WireStable(v)
  {
    hide Loads, Wire, WireStable, ReprLaw, Writable;
    LoadsBack(false, Plain(repr), v);
    FaithfulWire(repr, v);
  }
}
