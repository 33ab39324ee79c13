/** What the fields of a dictionary say about its normal form, and conversely. */
module Fields {
  import opened Wrappers
  import opened Text
  import opened Numbers
  import KeyOrder
  import opened Json
  import opened NormalForm

  /** Both absent, or both present with the same normal form. */
  predicate Alike(a: Option<Value>, b: Option<Value>) {
    if a.None? || b.None? then a.None? && b.None?
    else Normalise(a.value).Some? && Normalise(a.value) == Normalise(b.value)
  }

  /** Alike values are the same string, or both are dictionaries, or neither. */
  lemma AlikeShape(a: Value, b: Value)
    requires Normalise(a).Some? && Normalise(a) == Normalise(b)
    ensures a.Dict? <==> b.Dict?
    ensures a.Str? <==> b.Str?
    ensures a.Str? ==> a == b
  {}

  lemma {:induction false} GetNormalised(ms: seq<Member>, k: Text)
    requires NormaliseMembers(ms).Some?
    ensures var g := Get(NormaliseMembers(ms).value, k);
      if Get(ms, k).None? then g.None? else g.Some? && Normalise(Get(ms, k).value) == g
    ensures Get(ms, k).Some? ==> SurrogateFree(k)
  {
    hide Normalise;
    if ms != [] {
      var ns := NormaliseMembers(ms).value;
      assert NormaliseMember(ms[0]) == Some(ns[0]);
      assert NormaliseMembers(ms[1..]).value == ns[1..];
      if ms[0].key != k { GetNormalised(ms[1..], k); }
    }
  }

  /** Sorting keeps what each key holds. */
  lemma GetSorted(ms: seq<Member>, k: Text)
    requires UniqueKeys(ms)
    ensures Get(Sort(ms), k) == Get(ms, k)
  {
    hide Sort;
    SortKeeps(ms);
    SameMembers(ms, Sort(ms));
    SortKeysUnique(ms);
    GetFinds(ms, k);
    GetFinds(Sort(ms), k);
    if Get(ms, k).Some? {
      GetUnique(Sort(ms), Member(k, Get(ms, k).value));
    }
  }

  lemma {:induction false} SortKeysUnique(ms: seq<Member>)
    requires UniqueKeys(ms)
    ensures UniqueKeys(Sort(ms))
  {
    if ms != [] {
      SortKeysUnique(ms[1..]);
      SortKeeps(ms[1..]);
      SameMembers(ms[1..], Sort(ms[1..]));
      forall m | m in Sort(ms[1..]) ensures m.key != ms[0].key {
        assert m in ms[1..];
      }
      InsertKeysUnique(ms[0], Sort(ms[1..]));
    }
  }

  lemma {:induction false} InsertKeysUnique(m: Member, ms: seq<Member>)
    requires UniqueKeys(ms) && forall n | n in ms :: n.key != m.key
    ensures UniqueKeys(Insert(m, ms))
  {
    hide KeyOrder.KeyLess;
    assert forall i | 0 <= i < |ms| :: ms[i] in ms;
    if ms != [] && KeyOrder.KeyLess(ms[0].key, m.key) {
      InsertKeysUnique(m, ms[1..]);
      var r := Insert(m, ms[1..]);
      InsertKeeps(m, ms[1..]);
      forall i | 0 <= i < |r| ensures r[i].key != ms[0].key {
        assert r[i] in multiset(r);
        assert r[i] in ms[1..] || r[i] == m;
      }
      FirstUnique(ms[0], r);
    } else {
      FirstUnique(m, ms);
    }
  }

  lemma FirstUnique(m: Member, ms: seq<Member>)
    requires UniqueKeys(ms) && forall i | 0 <= i < |ms| :: ms[i].key != m.key
    ensures UniqueKeys([m] + ms)
  {}

  /** Dictionaries with the same normal form hold alike values under every key. */
  lemma FieldsAlike(v: Value, w: Value, k: Text)
    requires Proper(v) && Proper(w) && Normalise(v).Some? && Normalise(v) == Normalise(w)
    ensures Alike(Field(v, k), Field(w, k))
    ensures Field(v, k).Some? ==> Proper(Field(v, k).value) && Proper(Field(w, k).value)
    ensures v.Dict? <==> w.Dict?
  {
    AlikeShape(v, w);
    hide Normalise, Sort, Proper;
    if v.Dict? {
      NormaliseDict(v.members);
      NormaliseDict(w.members);
      var a, b := NormaliseMembers(v.members).value, NormaliseMembers(w.members).value;
      ProperKeys(v);
      ProperKeys(w);
      NormalisedKeys(v.members);
      NormalisedKeys(w.members);
      GetSorted(a, k);
      GetSorted(b, k);
      GetNormalised(v.members, k);
      GetNormalised(w.members, k);
      if Field(v, k).Some? {
        FieldProper(v, k);
        FieldProper(w, k);
      }
    }
  }

  lemma ProperKeys(v: Value)
    requires Proper(v) && v.Dict?
    ensures UniqueKeys(v.members)
  {}

  /** Conversely, alike values under every key make the normal forms equal. */
  lemma NormalByFields(ms: seq<Member>, ns: seq<Member>)
    requires UniqueKeys(ms) && UniqueKeys(ns) && Normalise(Dict(ms)).Some?
    requires forall k: Text :: Alike(Get(ms, k), Get(ns, k))
    ensures Normalise(Dict(ms)) == Normalise(Dict(ns))
  {
    hide Normalise, Sort, Sorted;
    NormaliseDict(ms);
    NormaliseDict(ns);
    forall k: Text ensures Alike(Get(ns, k), Get(ms, k)) {
      assert Alike(Get(ms, k), Get(ns, k));
    }
    hide Alike;
    TwinMembers(ns, ms);
    TwinMembers(ms, ns);
    SameSetSameOrder(ms, ns);
  }

  lemma SameSetSameOrder(ms: seq<Member>, ns: seq<Member>)
    requires UniqueKeys(ms) && UniqueKeys(ns) && NormaliseMembers(ms).Some? && NormaliseMembers(ns).Some?
    requires forall m :: m in NormaliseMembers(ms).value <==> m in NormaliseMembers(ns).value
    ensures Sort(NormaliseMembers(ms).value) == Sort(NormaliseMembers(ns).value)
  {
    hide Normalise, Sort, Sorted;
    var a, b := NormaliseMembers(ms).value, NormaliseMembers(ns).value;
    NormalisedKeys(ms);
    NormalisedKeys(ns);
    SortSorted(a);
    SortSorted(b);
    SortKeeps(a);
    SameMembers(a, Sort(a));
    SortKeeps(b);
    SameMembers(b, Sort(b));
    SortedUnique(Sort(a), Sort(b));
  }

  /** If every member of ms has an alike twin in ns, and ns is canonicalisable, so is ms. */
  lemma TwinMembers(ms: seq<Member>, ns: seq<Member>)
    requires UniqueKeys(ms) && NormaliseMembers(ns).Some?
    requires forall k: Text :: Alike(Get(ms, k), Get(ns, k))
    ensures NormaliseMembers(ms).Some?
    ensures forall m | m in NormaliseMembers(ms).value :: m in NormaliseMembers(ns).value
  {
    hide Alike, NormaliseMember;
    MembersNormal(ms);
    forall i | 0 <= i < |ms|
      ensures NormaliseMember(ms[i]).Some? && NormaliseMember(ms[i]).value in NormaliseMembers(ns).value
    {
      assert ms[i] in ms;
      TwinMember(ms, ns, ms[i]);
    }
  }

  lemma TwinMember(ms: seq<Member>, ns: seq<Member>, m: Member)
    requires UniqueKeys(ms) && m in ms && Alike(Get(ms, m.key), Get(ns, m.key))
    requires NormaliseMembers(ns).Some?
    ensures NormaliseMember(m).Some? && NormaliseMember(m).value in NormaliseMembers(ns).value
  {
    hide Normalise;
    GetUnique(ms, m);
    GetFinds(ns, m.key);
    var twin := Member(m.key, Get(ns, m.key).value);
    var i :| 0 <= i < |ns| && ns[i] == twin;
    MembersNormal(ns);
    assert NormaliseMember(ns[i]) == Some(NormaliseMembers(ns).value[i]);
  }

  /** Writing alike values under the same key keeps the normal forms equal. */
  lemma PutAlike(ms: seq<Member>, ns: seq<Member>, k: Text, x: Value, y: Value)
    requires Proper(Dict(ms)) && Proper(Dict(ns)) && SurrogateFree(k)
    requires Normalise(Dict(ms)).Some? && Normalise(Dict(ms)) == Normalise(Dict(ns))
    requires Proper(x) && Proper(y) && Normalise(x).Some? && Normalise(x) == Normalise(y)
    ensures Proper(Dict(Put(ms, k, x))) && Proper(Dict(Put(ns, k, y)))
    ensures Normalise(Dict(Put(ms, k, x))).Some?
    ensures Normalise(Dict(Put(ms, k, x))) == Normalise(Dict(Put(ns, k, y)))
  {
    hide Normalise, Sort;
    PutProper(ms, k, x);
    PutProper(ns, k, y);
    PutNormal(ms, k, x);
    forall key: Text ensures Alike(Get(Put(ms, k, x), key), Get(Put(ns, k, y), key)) {
      GetPut(ms, k, x, key);
      GetPut(ns, k, y, key);
      FieldsAlike(Dict(ms), Dict(ns), key);
    }
    ProperKeys(Dict(Put(ms, k, x)));
    ProperKeys(Dict(Put(ns, k, y)));
    NormalByFields(Put(ms, k, x), Put(ns, k, y));
  }

  lemma PutProper(ms: seq<Member>, k: Text, x: Value)
    requires Proper(Dict(ms)) && Proper(x)
    ensures Proper(Dict(Put(ms, k, x)))
  {
    var r := Put(ms, k, x);
    PutKeeps(ms, k, x);
    forall i | 0 <= i < |r| ensures Proper(r[i].value) {
      assert r[i] in r;
      if r[i] in ms {
        var j :| 0 <= j < |ms| && ms[j] == r[i];
      }
    }
  }

  lemma PutNormal(ms: seq<Member>, k: Text, x: Value)
    requires Normalise(Dict(ms)).Some? && Normalise(x).Some? && SurrogateFree(k)
    ensures Normalise(Dict(Put(ms, k, x))).Some?
  {
    hide Normalise;
    NormaliseDict(ms);
    var r := Put(ms, k, x);
    NormaliseDict(r);
    MembersNormal(ms);
    MembersNormal(r);
    PutKeeps(ms, k, x);
    hide Put;
    forall i | 0 <= i < |r| ensures NormaliseMember(r[i]).Some? {
      assert r[i] in r;
      if r[i] in ms {
        var j :| 0 <= j < |ms| && ms[j] == r[i];
      }
    }
  }
}
