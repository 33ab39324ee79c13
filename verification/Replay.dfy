/** ReplayGuard: one admission as the program runs it, and all interleavings of admissions, caller
    mutations, lock timeouts, crashes and restarts over one database. */
module Replay {
  import opened Wrappers
  import opened Text
  import opened Json
  import opened Render
  import opened Base64
  import opened Records

  type Table = map<Text, Bytes>

  // ---------- one call ----------

  class ReplayGuard {
    var admitted: Table

    /** CREATE TABLE IF NOT EXISTS on what the database file holds. */
    constructor (stored: Option<Table>)
      ensures forall id | id in admitted :: stored.Some? && id in stored.value && admitted[id] == stored.value[id]
      ensures forall id | stored.Some? && id in stored.value :: id in admitted
    {
      admitted := if stored.Some? then stored.value else map[];
    }

    method Accept(p: Platform, record: Value, key: Option<Bytes>) returns (ok: bool)
      modifies this
      ensures ok <==> key.Some? && Verify(p, record, key) && IdOf(record) !in old(admitted)
      ensures admitted ==
        if ok then old(admitted)[IdOf(record) := CanonicalBytes(p.repr, record).value] else old(admitted)
    {
      hide Verify, IdOf, CanonicalBytes;
      var frozen := record;
      if !VerifyTrusted(p, frozen, key) {
        return false;
      }
      VerifiedHasBytes(p, frozen, key);
      var data := CanonicalBytes(p.repr, frozen).value;
      if IdOf(frozen) in admitted {
        return false;
      }
      admitted := admitted[IdOf(frozen) := data];
      return true;
    }
  }

  /** Across a restart on the same database at most one of two calls for one identifier returns True,
      and the rows of the first life are all there in the second. */
  method AdmitAcrossRestart(p: Platform, guard: ReplayGuard, first: Value, second: Value, key: Option<Bytes>, key': Option<Bytes>)
    returns (a: bool, b: bool, again: ReplayGuard)
    requires IdOf(first) == IdOf(second)
    modifies guard
    ensures !(a && b)
    ensures a ==> IdOf(first) in again.admitted && CanonicalBytes(p.repr, first) == Some(again.admitted[IdOf(first)])
    ensures forall id | id in old(guard.admitted) :: id in again.admitted && again.admitted[id] == old(guard.admitted)[id]
  {
    hide Verify, IdOf, CanonicalBytes;
    a := guard.Accept(p, first, key);
    again := new ReplayGuard(Some(guard.admitted));
    b := again.Accept(p, second, key');
    if a { VerifiedHasBytes(p, first, key); }
  }

  lemma VerifiedHasBytes(p: Platform, v: Value, key: Option<Bytes>)
    requires Verify(p, v, key)
    ensures CanonicalBytes(p.repr, v).Some?
  {
    hide SchemaOk, CanonicalBytes;
  }

  // ---------- many calls ----------

  /** Where a call stands. f is the frozen copy. */
  datatype Phase =
    | Started
    | Copied(f: Value)
    | Checked(f: Value)
    | Inserted(f: Value)
    | Committed(f: Value)
    | Accepted(f: Value)
    | Invalid
    | Replayed(f: Value)
    | Raised
    | Dead
    | DeadAfterCommit(f: Value)
  {
    predicate Finished() { Accepted? || Invalid? || Replayed? || Raised? || Dead? || DeadAfterCommit? }

    /** The record whose row this call has committed. */
    function Owned(): Option<Value> {
      match this
      case Committed(f) => Some(f)
      case Accepted(f) => Some(f)
      case DeadAfterCommit(f) => Some(f)
      case _ => None
    }

    function Frozen(): Option<Value> {
      match this
      case Started => None
      case Invalid => None
      case Raised => None
      case Dead => None
      case _ => Some(f)
    }

    function Killed(): Phase {
      if Finished() then this else if Committed? then DeadAfterCommit(f) else Dead
    }
  }

  /** record is the caller's own, which may change under the call. */
  datatype Call = Call(record: Value, key: Option<Bytes>, phase: Phase)

  /** The stored table, None before the first construction; the call that holds SQLite's write
      lock; every call ever made. */
  datatype State = State(table: Option<Table>, lock: Option<nat>, calls: seq<Call>) {
    function Rows(): Table { if table.Some? then table.value else map[] }

    function In(i: nat, phase: Phase): State
      requires i < |calls|
    {
      this.(calls := calls[i := calls[i].(phase := phase)])
    }
  }

  datatype Action =
    | Construct
    | Begin(record: Value, key: Option<Bytes>)
    | Mutate(i: nat, record: Value)
    | Copy(i: nat)
    | Check(i: nat)
    | Insert(i: nat)
    | Timeout(i: nat)
    | Commit(i: nat)
    | Rollback(i: nat)
    | Return(i: nat)
    | Crash(dead: set<nat>)

  const START: State := State(None, None, [])

  predicate Enabled(s: State, a: Action) {
    match a
    case Construct => true
    case Begin(_, _) => s.table.Some?
    case Mutate(i, _) => i < |s.calls|
    case Copy(i) => i < |s.calls| && s.calls[i].phase.Started?
    case Check(i) => i < |s.calls| && s.calls[i].phase.Copied?
    case Insert(i) => i < |s.calls| && s.calls[i].phase.Checked? && s.lock.None?
    case Timeout(i) => i < |s.calls| && s.calls[i].phase.Checked? && s.lock.Some?
    case Commit(i) => i < |s.calls| && s.calls[i].phase.Inserted? && s.lock == Some(i)
    case Rollback(i) => i < |s.calls| && s.calls[i].phase.Inserted? && s.lock == Some(i)
    case Return(i) => i < |s.calls| && s.calls[i].phase.Committed?
    case Crash(_) => true
  }

  /** One step of the program, of a caller or of the machine. */
  function Step(p: Platform, s: State, a: Action): State
    requires Enabled(s, a)
  {
    match a
    case Construct => s.(table := Some(s.Rows()))
    case Begin(record, key) => s.(calls := s.calls + [Call(record, key, Started)])
    case Mutate(i, record) => s.(calls := s.calls[i := s.calls[i].(record := record)])
    case Copy(i) => s.In(i, Copied(s.calls[i].record))
    case Check(i) =>
      s.In(i, if VerifyTrusted(p, s.calls[i].phase.f, s.calls[i].key) then Checked(s.calls[i].phase.f) else Invalid)
    case Insert(i) =>
      if IdOf(s.calls[i].phase.f) in s.Rows() then s.In(i, Replayed(s.calls[i].phase.f))
      else s.In(i, Inserted(s.calls[i].phase.f)).(lock := Some(i))
    case Timeout(i) => s.In(i, Raised)
    case Commit(i) =>
      var f := s.calls[i].phase.f;
      s.In(i, Committed(f)).(lock := None, table := Some(s.Rows()[IdOf(f) := RowOf(p, f)]))
    case Rollback(i) => s.In(i, Raised).(lock := None)
    case Return(i) => s.In(i, Accepted(s.calls[i].phase.f))
    case Crash(dead) =>
      State(s.table, if s.lock.Some? && s.lock.value in dead then None else s.lock,
            seq(|s.calls|, i requires 0 <= i < |s.calls| =>
              if i in dead then s.calls[i].(phase := s.calls[i].phase.Killed()) else s.calls[i]))
  }

  /** canonical_json(record), which a verified record always has. */
  function RowOf(p: Platform, f: Value): Bytes {
    var b := CanonicalBytes(p.repr, f);
    if b.Some? then b.value else []
  }

  /** The state after a run of steps; None when some step was not enabled. */
  function After(p: Platform, run: seq<Action>): Option<State> {
    if run == [] then Some(START)
    else
      var s :- After(p, run[..|run| - 1]);
      if Enabled(s, run[|run| - 1]) then Some(Step(p, s, run[|run| - 1])) else None
  }

  // ---------- the invariant ----------

  /** A call past its check froze a record that verified under its key. */
  predicate PhaseOk(p: Platform, c: Call) {
    (c.phase.Checked? || c.phase.Inserted? || c.phase.Replayed? || c.phase.Owned().Some?) ==>
      c.key.Some? && Verify(p, c.phase.f, c.key)
  }

  /** Every committed record has its row, and no two committed records share an identifier. */
  predicate OwnersOk(p: Platform, s: State) {
    && (forall i | 0 <= i < |s.calls| && s.calls[i].phase.Owned().Some? ::
          var f := s.calls[i].phase.Owned().value; IdOf(f) in s.Rows() && s.Rows()[IdOf(f)] == RowOf(p, f))
    && (forall i, j | 0 <= i < j < |s.calls| && s.calls[i].phase.Owned().Some? && s.calls[j].phase.Owned().Some? ::
          IdOf(s.calls[i].phase.Owned().value) != IdOf(s.calls[j].phase.Owned().value))
  }

  predicate Owner(s: State, id: Text, i: nat) {
    i < |s.calls| && s.calls[i].phase.Owned().Some? && IdOf(s.calls[i].phase.Owned().value) == id
  }

  /** Every row was committed by some call. */
  predicate RowsOwned(s: State) {
    forall id | id in s.Rows() :: exists i | 0 <= i < |s.calls| :: Owner(s, id, i)
  }

  /** Only the lock's holder has an uncommitted row, and its identifier is not stored. */
  predicate LockOk(s: State) {
    forall i | 0 <= i < |s.calls| && s.calls[i].phase.Inserted? ::
      s.lock == Some(i) && IdOf(s.calls[i].phase.f) !in s.Rows()
  }

  /** A call is turned away as a replay only when its identifier is stored. */
  predicate ReplaysOk(s: State) {
    forall i | 0 <= i < |s.calls| && s.calls[i].phase.Replayed? :: IdOf(s.calls[i].phase.f) in s.Rows()
  }

  predicate Inv(p: Platform, s: State) {
    && (forall i | 0 <= i < |s.calls| :: PhaseOk(p, s.calls[i]))
    && OwnersOk(p, s) && RowsOwned(s) && LockOk(s) && ReplaysOk(s)
    && (s.table.None? ==> s.calls == [])
  }

  /** A step that changes neither the rows nor who owns one, and frees the lock only when nobody
      has an uncommitted row. */
  lemma Quiet(p: Platform, s: State, t: State)
    requires Inv(p, s) && t.Rows() == s.Rows() && |s.calls| <= |t.calls| && (t.table.None? ==> t.calls == [])
    requires forall i | 0 <= i < |t.calls| :: PhaseOk(p, t.calls[i])
    requires forall i | 0 <= i < |s.calls| :: t.calls[i].phase.Owned() == s.calls[i].phase.Owned()
    requires forall i | |s.calls| <= i < |t.calls| :: t.calls[i].phase.Owned().None?
    requires LockOk(t) && ReplaysOk(t)
    ensures Inv(p, t)
  {
    hide Verify, IdOf, RowOf, PhaseOk;
    forall id | id in t.Rows() ensures exists i | 0 <= i < |t.calls| :: Owner(t, id, i) {
      var i :| 0 <= i < |s.calls| && Owner(s, id, i);
      assert Owner(t, id, i);
    }
  }

  lemma CommittedCall(p: Platform, c: Call)
    requires PhaseOk(p, c) && c.phase.Inserted?
    ensures PhaseOk(p, c.(phase := Committed(c.phase.f)))
  {
    hide Verify;
  }

  lemma StepCommit(p: Platform, s: State, i: nat)
    requires Inv(p, s) && Enabled(s, Commit(i))
    ensures Inv(p, Step(p, s, Commit(i)))
  {
    hide Verify, IdOf, RowOf, PhaseOk;
    var t := Step(p, s, Commit(i));
    var f := s.calls[i].phase.f;
    CommittedCall(p, s.calls[i]);
    forall id | id in t.Rows() ensures exists j | 0 <= j < |t.calls| :: Owner(t, id, j) {
      if id == IdOf(f) {
        assert Owner(t, id, i);
      } else {
        var j :| 0 <= j < |s.calls| && Owner(s, id, j);
        assert Owner(t, id, j);
      }
    }
  }

  /** A step of one call that commits nothing. */
  lemma Local(p: Platform, s: State, i: nat, phase: Phase, lock: Option<nat>)
    requires Inv(p, s) && i < |s.calls| && PhaseOk(p, s.calls[i].(phase := phase))
    requires phase.Owned() == s.calls[i].phase.Owned()
    requires phase.Replayed? ==> IdOf(phase.f) in s.Rows()
    requires phase.Inserted? ==> lock == Some(i) && IdOf(phase.f) !in s.Rows()
    requires lock == s.lock || s.lock.None? || s.lock == Some(i)
    ensures Inv(p, s.In(i, phase).(lock := lock))
  {
    hide Verify, IdOf, RowOf, PhaseOk;
    Quiet(p, s, s.In(i, phase).(lock := lock));
  }

  lemma KilledCall(p: Platform, c: Call)
    requires PhaseOk(p, c)
    ensures var d := c.(phase := c.phase.Killed());
      && PhaseOk(p, d) && d.phase.Owned() == c.phase.Owned() && !d.phase.Inserted?
      && (d.phase.Replayed? ==> d.phase == c.phase)
  {
    hide Verify;
  }

  lemma StepCrash(p: Platform, s: State, dead: set<nat>)
    requires Inv(p, s)
    ensures Inv(p, Step(p, s, Crash(dead)))
  {
    hide Verify, IdOf, RowOf, PhaseOk, OwnersOk, RowsOwned;
    hide Phase.Killed, Phase.Owned;
    var t := Step(p, s, Crash(dead));
    forall i | 0 <= i < |t.calls|
      ensures PhaseOk(p, t.calls[i]) && t.calls[i].phase.Owned() == s.calls[i].phase.Owned()
      ensures t.calls[i].phase.Inserted? ==> i !in dead && t.calls[i] == s.calls[i]
      ensures t.calls[i].phase.Replayed? ==> t.calls[i].phase == s.calls[i].phase
    {
      if i in dead { KilledCall(p, s.calls[i]); }
    }
    Quiet(p, s, t);
  }

  lemma StepOutside(p: Platform, s: State, a: Action)
    requires Inv(p, s) && Enabled(s, a) && (a.Construct? || a.Begin? || a.Mutate?)
    ensures Inv(p, Step(p, s, a))
  {
    hide Verify, IdOf, RowOf;
    Quiet(p, s, Step(p, s, a));
  }

  lemma StepLocal(p: Platform, s: State, a: Action)
    requires Inv(p, s) && Enabled(s, a)
    requires a.Copy? || a.Check? || a.Insert? || a.Timeout? || a.Rollback? || a.Return?
    ensures Inv(p, Step(p, s, a))
  {
    hide Verify, IdOf, RowOf, LockOk, RowsOwned, ReplaysOk, OwnersOk;
    var t := Step(p, s, a);
    var i := a.i;
    assert PhaseOk(p, s.calls[i]);
    Local(p, s, i, t.calls[i].phase, t.lock);
    assert t == s.In(i, t.calls[i].phase).(lock := t.lock);
  }

  lemma StepInv(p: Platform, s: State, a: Action)
    requires Inv(p, s) && Enabled(s, a)
    ensures Inv(p, Step(p, s, a))
  {
    hide Verify, Inv, Step;
    match a
    case Commit(i) => StepCommit(p, s, i);
    case Crash(dead) => StepCrash(p, s, dead);
    case Construct => StepOutside(p, s, a);
    case Begin(_, _) => StepOutside(p, s, a);
    case Mutate(_, _) => StepOutside(p, s, a);
    case _ => StepLocal(p, s, a);
  }

  lemma {:induction false} RunInv(p: Platform, run: seq<Action>, s: State)
    requires After(p, run) == Some(s)
    ensures Inv(p, s)
  {
    hide Inv, Step;
    if run == [] {
      StartInv(p);
    } else {
      var before := After(p, run[..|run| - 1]).value;
      RunInv(p, run[..|run| - 1], before);
      StepInv(p, before, run[|run| - 1]);
    }
  }

  lemma StartInv(p: Platform)
    ensures Inv(p, START)
  {}

  // ---------- what holds of every run ----------

  /** At most one call ever returns True for an identifier. */
  lemma AtMostOnce(p: Platform, run: seq<Action>, s: State, i: nat, j: nat)
    requires After(p, run) == Some(s) && i < |s.calls| && j < |s.calls|
    requires s.calls[i].phase.Accepted? && s.calls[j].phase.Accepted?
    requires IdOf(s.calls[i].phase.f) == IdOf(s.calls[j].phase.f)
    ensures i == j
  {
    hide Step, Verify, IdOf;
    RunInv(p, run, s);
  }

  /** Every stored row is the canonical form of the frozen record that verified in the one call that
      committed it. */
  lemma RowOrigin(p: Platform, run: seq<Action>, s: State, id: Text) returns (i: nat)
    requires After(p, run) == Some(s) && id in s.Rows()
    ensures i < |s.calls| && s.calls[i].phase.Owned().Some?
    ensures var f := s.calls[i].phase.Owned().value;
      s.calls[i].key.Some? && Verify(p, f, s.calls[i].key) && IdOf(f) == id && CanonicalBytes(p.repr, f) == Some(s.Rows()[id])
    ensures forall j | 0 <= j < |s.calls| && Owner(s, id, j) :: j == i
  {
    hide Step, Verify, IdOf, CanonicalBytes;
    RunInv(p, run, s);
    i :| 0 <= i < |s.calls| && Owner(s, id, i);
    assert PhaseOk(p, s.calls[i]);
    VerifiedHasBytes(p, s.calls[i].phase.f, s.calls[i].key);
  }

  /** No call gets past its check without a key the record verifies under. */
  lemma KeyNeeded(p: Platform, run: seq<Action>, s: State, i: nat)
    requires After(p, run) == Some(s) && i < |s.calls|
    requires var c := s.calls[i].phase;
      c.Checked? || c.Inserted? || c.Replayed? || c.Committed? || c.Accepted? || c.DeadAfterCommit?
    ensures s.calls[i].key.Some? && Verify(p, s.calls[i].phase.f, s.calls[i].key)
  {
    hide Step, Verify, IdOf;
    RunInv(p, run, s);
    assert PhaseOk(p, s.calls[i]);
  }

  /** No reachable call is stuck: copying and checking wait for nothing, an insertion finds the lock free
      or times out, what holds the lock may commit or be rolled back, and a committed call returns. At any
      point its caller may change the record, other calls may begin, and the machine may stop. */
  lemma NeverStuck(p: Platform, run: seq<Action>, s: State, i: nat, record: Value, key: Option<Bytes>, dead: set<nat>)
    requires After(p, run) == Some(s) && i < |s.calls|
    ensures var c := s.calls[i].phase;
      && (c.Started? ==> Enabled(s, Copy(i))) && (c.Copied? ==> Enabled(s, Check(i)))
      && (c.Checked? ==> Enabled(s, if s.lock.None? then Insert(i) else Timeout(i)))
      && (c.Inserted? ==> Enabled(s, Commit(i)) && Enabled(s, Rollback(i)))
      && (c.Committed? ==> Enabled(s, Return(i)))
    ensures Enabled(s, Mutate(i, record)) && Enabled(s, Begin(record, key))
    ensures Enabled(s, Crash(dead)) && Enabled(s, Construct)
  {
    hide Step, Verify, IdOf, PhaseOk, OwnersOk, RowsOwned, ReplaysOk;
    RunInv(p, run, s);
  }

  /** The lock is held only by a call between its insertion and the commit or rollback. */
  predicate HeldOk(s: State) { s.lock.Some? ==> s.lock.value < |s.calls| && s.calls[s.lock.value].phase.Inserted? }

  lemma StepHeld(p: Platform, s: State, a: Action)
    requires HeldOk(s) && Enabled(s, a)
    ensures HeldOk(Step(p, s, a))
  {
    hide Verify, IdOf, RowOf;
  }

  /** No lock is ever lost: whoever holds it is about to commit or to be rolled back, through crashes and
      restarts. */
  lemma LockLive(p: Platform, run: seq<Action>, s: State)
    requires After(p, run) == Some(s) && s.lock.Some?
    ensures s.lock.value < |s.calls| && s.calls[s.lock.value].phase.Inserted?
    ensures Enabled(s, Commit(s.lock.value)) && Enabled(s, Rollback(s.lock.value))
  {
    RunHeld(p, run, s);
  }

  lemma {:induction false} RunHeld(p: Platform, run: seq<Action>, s: State)
    requires After(p, run) == Some(s)
    ensures HeldOk(s)
  {
    hide Step;
    if run != [] {
      var before := After(p, run[..|run| - 1]).value;
      RunHeld(p, run[..|run| - 1], before);
      StepHeld(p, before, run[|run| - 1]);
    }
  }

  /** Every row was signed, by its own signature block, with the key its admission was given. */
  lemma RowSigner(p: Platform, run: seq<Action>, s: State, id: Text) returns (i: nat)
    requires After(p, run) == Some(s) && id in s.Rows()
    ensures i < |s.calls| && s.calls[i].phase.Owned().Some? && s.calls[i].key.Some?
    ensures var f := s.calls[i].phase.Owned().value;
      && CanonicalBytes(p.repr, f) == Some(s.Rows()[id]) && Has(f, SIGNATURE)
      && Field(Field(f, SIGNATURE).value, PUBLIC_KEY) == Some(Str(B64Url(s.calls[i].key.value)))
  {
    hide Step, Verify, IdOf, CanonicalBytes;
    i := RowOrigin(p, run, s, id);
    VerifiedSigner(p, s.calls[i].phase.Owned().value, s.calls[i].key.value);
  }

  /** A call that returned True left its row behind, and a verified record is turned away only
      when some call has committed its identifier. */
  lemma ResultsMean(p: Platform, run: seq<Action>, s: State, i: nat)
    requires After(p, run) == Some(s) && i < |s.calls|
    requires s.calls[i].phase.Accepted? || s.calls[i].phase.Replayed?
    ensures var f := s.calls[i].phase.f;
      && s.calls[i].key.Some? && Verify(p, f, s.calls[i].key) && IdOf(f) in s.Rows()
      && (s.calls[i].phase.Accepted? ==> CanonicalBytes(p.repr, f) == Some(s.Rows()[IdOf(f)]))
  {
    hide Step, Verify, IdOf, CanonicalBytes;
    RunInv(p, run, s);
    assert PhaseOk(p, s.calls[i]);
    VerifiedHasBytes(p, s.calls[i].phase.f, s.calls[i].key);
  }

  /** No later step changes or removes a row, through crashes, restarts and mutations. */
  lemma {:induction false} RowsFixed(p: Platform, run: seq<Action>, more: seq<Action>, s: State, t: State, id: Text)
    requires After(p, run) == Some(s) && After(p, run + more) == Some(t) && id in s.Rows()
    ensures id in t.Rows() && t.Rows()[id] == s.Rows()[id]
  {
    hide Step, Inv;
    if more == [] {
      assert run + more == run;
    } else {
      var m := more[..|more| - 1];
      assert (run + more)[..|run + more| - 1] == run + m;
      var u := After(p, run + m).value;
      RowsFixed(p, run, m, s, u, id);
      RunInv(p, run + m, u);
      StepKeepsRows(p, u, (run + more)[|run + more| - 1], id);
    }
  }

  lemma StepKeepsRows(p: Platform, s: State, a: Action, id: Text)
    requires Inv(p, s) && Enabled(s, a) && id in s.Rows()
    ensures var t := Step(p, s, a); id in t.Rows() && t.Rows()[id] == s.Rows()[id]
  {
    hide Verify, IdOf, RowOf;
  }

  /** What a call froze is what its caller held when it copied, whatever the caller did later. */
  lemma {:induction false} FrozenOrigin(p: Platform, run: seq<Action>, s: State, i: nat) returns (n: nat)
    requires After(p, run) == Some(s) && i < |s.calls| && s.calls[i].phase.Frozen().Some?
    ensures n < |run| && run[n] == Copy(i)
    ensures var before := After(p, run[..n]);
      before.Some? && i < |before.value.calls| && before.value.calls[i].record == s.calls[i].phase.Frozen().value
  {
    hide Verify, IdOf, RowOf;
    var m := |run| - 1;
    var before, a := After(p, run[..m]).value, run[m];
    if a == Copy(i) {
      return m;
    }
    StepKeepsFrozen(p, before, a, i);
    n := FrozenOrigin(p, run[..m], before, i);
    assert run[..m][..n] == run[..n];
  }

  lemma StepKeepsFrozen(p: Platform, s: State, a: Action, i: nat)
    requires Enabled(s, a) && a != Copy(i)
    requires i < |Step(p, s, a).calls| && Step(p, s, a).calls[i].phase.Frozen().Some?
    ensures i < |s.calls| && s.calls[i].phase.Frozen() == Step(p, s, a).calls[i].phase.Frozen()
  {
    hide Verify, IdOf, RowOf;
  }

  /** The steps of one call left alone. */
  function Alone(record: Value, key: Option<Bytes>, i: nat): seq<Action> {
    [Begin(record, key), Copy(i), Check(i), Insert(i), Commit(i), Return(i)]
  }

  function With(s: State, record: Value, key: Option<Bytes>, phase: Phase): State {
    s.(calls := s.calls + [Call(record, key, phase)])
  }

  lemma InWith(s: State, record: Value, key: Option<Bytes>, phase: Phase, phase': Phase)
    ensures With(s, record, key, phase).In(|s.calls|, phase') == With(s, record, key, phase')
  {}

  lemma AfterOne(p: Platform, run: seq<Action>, a: Action)
    requires After(p, run).Some?
    ensures After(p, run + [a]) ==
      if Enabled(After(p, run).value, a) then Some(Step(p, After(p, run).value, a)) else None
  {
    hide Enabled, Step;
    assert (run + [a])[..|run|] == run;
  }

  lemma AloneChecks(p: Platform, run: seq<Action>, s: State, record: Value, key: Option<Bytes>)
    requires After(p, run) == Some(s) && s.table.Some?
    ensures After(p, run + Alone(record, key, |s.calls|)[..3]) ==
      Some(With(s, record, key, if key.Some? && Verify(p, record, key) then Checked(record) else Invalid))
  {
    hide Verify, After;
    var w := Alone(record, key, |s.calls|);
    AfterOne(p, run, w[0]);
    AfterOne(p, run + [w[0]], w[1]);
    InWith(s, record, key, Started, Copied(record));
    AfterOne(p, run + [w[0]] + [w[1]], w[2]);
    InWith(s, record, key, Copied(record), if key.Some? && Verify(p, record, key) then Checked(record) else Invalid);
    assert run + [w[0]] + [w[1]] + [w[2]] == run + w[..3];
  }

  /** Undisturbed, with the lock free, a call on a verified record with a new identifier returns True
      and adds exactly its row, as Accept does. */
  lemma AloneAccepts(p: Platform, run: seq<Action>, s: State, record: Value, key: Option<Bytes>)
    requires After(p, run) == Some(s) && s.table.Some? && s.lock.None?
    requires key.Some? && Verify(p, record, key) && IdOf(record) !in s.Rows()
    ensures After(p, run + Alone(record, key, |s.calls|)) ==
      Some(With(s, record, key, Accepted(record)).(table := Some(s.Rows()[IdOf(record) := RowOf(p, record)])))
  {
    hide Verify, After, IdOf, RowOf;
    var w := Alone(record, key, |s.calls|);
    AloneChecks(p, run, s, record, key);
    var r3 := run + w[..3];
    AfterOne(p, r3, w[3]);
    InWith(s, record, key, Checked(record), Inserted(record));
    AfterOne(p, r3 + [w[3]], w[4]);
    InWith(s, record, key, Inserted(record), Committed(record));
    AfterOne(p, r3 + [w[3]] + [w[4]], w[5]);
    InWith(s, record, key, Committed(record), Accepted(record));
    assert r3 + [w[3]] + [w[4]] + [w[5]] == run + w;
  }

  /** Undisturbed, a call on anything else returns False and changes no row, as Accept does. */
  lemma AloneRefuses(p: Platform, run: seq<Action>, s: State, record: Value, key: Option<Bytes>)
    requires After(p, run) == Some(s) && s.table.Some? && s.lock.None?
    requires !(key.Some? && Verify(p, record, key)) || IdOf(record) in s.Rows()
    ensures var steps := if key.Some? && Verify(p, record, key) then 4 else 3;
      After(p, run + Alone(record, key, |s.calls|)[..steps]) ==
      Some(With(s, record, key, if key.Some? && Verify(p, record, key) then Replayed(record) else Invalid))
  {
    hide Verify, After, IdOf;
    var w := Alone(record, key, |s.calls|);
    AloneChecks(p, run, s, record, key);
    if key.Some? && Verify(p, record, key) {
      AfterOne(p, run + w[..3], w[3]);
      InWith(s, record, key, Checked(record), Replayed(record));
      assert run + w[..3] + [w[3]] == run + w[..4];
    }
  }

  /** What the caller does to its record once it was copied changes nothing: the frozen record is checked
      and admitted. */
  lemma MutatedAfterCopy(p: Platform, run: seq<Action>, s: State, record: Value, key: Option<Bytes>, other: Value)
    requires After(p, run) == Some(s) && s.table.Some? && s.lock.None?
    requires key.Some? && Verify(p, record, key) && IdOf(record) !in s.Rows()
    ensures var i := |s.calls|;
      After(p, run + [Begin(record, key), Copy(i), Mutate(i, other), Check(i), Insert(i), Commit(i), Return(i)]) ==
      Some(With(s, other, key, Accepted(record)).(table := Some(s.Rows()[IdOf(record) := RowOf(p, record)])))
  {
    hide Verify, After, IdOf, RowOf;
    var i := |s.calls|;
    var w := [Begin(record, key), Copy(i), Mutate(i, other), Check(i), Insert(i), Commit(i), Return(i)];
    AfterOne(p, run, w[0]);
    AfterOne(p, run + [w[0]], w[1]);
    InWith(s, record, key, Started, Copied(record));
    AfterOne(p, run + [w[0]] + [w[1]], w[2]);
    assert Step(p, With(s, record, key, Copied(record)), w[2]) == With(s, other, key, Copied(record));
    AfterOne(p, run + [w[0]] + [w[1]] + [w[2]], w[3]);
    InWith(s, other, key, Copied(record), Checked(record));
    var r := run + [w[0]] + [w[1]] + [w[2]] + [w[3]];
    AfterOne(p, r, w[4]);
    InWith(s, other, key, Checked(record), Inserted(record));
    AfterOne(p, r + [w[4]], w[5]);
    InWith(s, other, key, Inserted(record), Committed(record));
    AfterOne(p, r + [w[4]] + [w[5]], w[6]);
    InWith(s, other, key, Committed(record), Accepted(record));
    assert r + [w[4]] + [w[5]] + [w[6]] == run + w;
  }
}
