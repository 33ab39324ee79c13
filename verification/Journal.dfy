/** A chain kept in the JSONL file: built, appended among crashes, read back and verified. */
module Journal {
  import opened Wrappers
  import opened Text
  import opened Numbers
  import opened Json
  import opened JsonParser
  import opened JsonWriter
  import opened RoundTrip
  import opened Render
  import opened Records
  import opened Chains
  import opened Binding
  import opened Runs
  import Sink = JsonlSink

  /** The records whose whole text reached the file, in order. */
  function Kept(repr: Repr, file: Bytes, ws: seq<Sink.Attempt>): seq<Value>
    requires Sink.Run(repr, file, ws)
    decreases ws
  {
    if ws == [] then []
    else
      var rest := Kept(repr, Sink.After(repr, file, ws[0]), ws[1..]);
      if |Write(Plain(repr), ws[0].record)| <= Sink.Got(repr, file, ws[0]) then [ws[0].record] + rest else rest
  }

  lemma ReachedKept(repr: Repr, v: Value, k: nat)
    requires v.Dict?
    ensures Sink.Reached(repr, v, k).records ==
      if |Write(Plain(repr), v)| <= k then [Wire(Plain(repr), v)] else []
  {
    Sink.ObjectEnds(Plain(repr), v);
  }

  lemma {:induction false} KeptRead(repr: Repr, file: Bytes, ws: seq<Sink.Attempt>)
    requires Sink.Run(repr, file, ws)
    ensures var ks, out := Kept(repr, file, ws), Sink.Outcome(repr, file, ws).records;
      |ks| == |out| && forall i | 0 <= i < |ks| :: out[i] == Wire(Plain(repr), ks[i])
    decreases ws
  {
    hide Write, Wire, Sink.Got, Sink.After, Sink.Reached;
    if ws != [] {
      ReachedKept(repr, ws[0].record, Sink.Got(repr, file, ws[0]));
      KeptRead(repr, Sink.After(repr, file, ws[0]), ws[1..]);
    }
  }

  /** Reading back a canonicalisable record's line is receiving it in plain form. */
  lemma WireReceived(repr: Repr, v: Value)
    requires ReprLaw(repr) && Proper(v) && CanonicalBytes(repr, v).Some?
    ensures Received(repr, false, PlainText, v) == Some(Wire(Plain(repr), v))
  {
    hide Write, Wire, Writable, ReprLaw, Loads, Proper, CanonicalBytes;
    ReceivedSimilar(repr, false, PlainText, v);
    LoadsBack(false, Plain(repr), v);
  }

  /** A list of canonicalisable records kept by the file verifies, with or without a checkpoint, as
      the list itself does. */
  lemma KeptVerdict(p: Platform, rs: seq<Value>, out: seq<Value>, key: Option<Bytes>, cp: Option<Value>)
    requires ReprLaw(p.repr) && AllProper(rs) && |out| == |rs|
    requires forall i | 0 <= i < |rs| :: CanonicalBytes(p.repr, rs[i]).Some? && out[i] == Wire(Plain(p.repr), rs[i])
    ensures Accepted(p, List(out), key, cp) == Accepted(p, List(rs), key, cp)
  {
    hide Wire, ReprLaw, Proper, CanonicalBytes, Received, Accepted;
    var forms := seq(|rs|, _ => PlainText);
    forall i | 0 <= i < |rs| ensures Received(p.repr, false, forms[i], rs[i]) == Some(out[i]) {
      WireReceived(p.repr, rs[i]);
    }
    TravelKeepsVerdict(p, false, forms, rs, out, key, cp);
  }

  /** The first n records of a run, appended to a file that holds no record, whatever torn appends
      fall between: all() does not raise, and what it reads is accepted under the signer's key,
      and with the run's checkpoint exactly when no record is missing. */
  lemma RunJournalled(p: Platform, seed: Bytes, o: Opening, steps: seq<Amendment>, rs: seq<Value>, n: nat,
                      file: Bytes, ws: seq<Sink.Attempt>) returns (out: seq<Value>)
    requires Lawful(p) && |seed| == KEY_SIZE && ArgumentsProper(o, steps) && FreshIds(o, steps)
    requires Run(p, seed, o, steps) == Some(rs) && 0 < n <= |rs|
    requires Sink.ReadFile(file).Some? && Sink.ReadFile(file).value.records == []
    requires Sink.Run(p.repr, file, ws) && Kept(p.repr, file, ws) == rs[..n]
    ensures Sink.ReadFile(Sink.Final(p.repr, file, ws)).Some?
    ensures Sink.ReadFile(Sink.Final(p.repr, file, ws)).value.records == out
    ensures Accepted(p, List(out), Some(p.publicKey(seed)), None)
    ensures Checkpoint(p, rs).Some?
    ensures Accepted(p, List(out), Some(p.publicKey(seed)), Checkpoint(p, rs)) <==> n == |rs|
  {
    hide Lawful, Runs.Run, ArgumentsProper, FreshIds, Sink.Run, Sink.ReadFile, Sink.Final, Sink.Outcome, Kept;
    hide ReprLaw, Wire, ChainOk, Checkpoint, Proper, CanonicalBytes, CheckpointOk;
    var key := Some(p.publicKey(seed));
    LawfulRepr(p);
    Sink.RunReads(p.repr, file, ws);
    KeptRead(p.repr, file, ws);
    out := Sink.Outcome(p.repr, file, ws).records;
    assert [] + out == out;
    NoKeyFits(p, seed);
    RunAccepted(p, seed, o, steps, rs, key);
    RunRecords(p, seed, o, steps, rs);
    PrefixAccepted(p, rs, key, n);
    KeptVerdict(p, rs[..n], out, key, None);
    KeptVerdict(p, rs[..n], out, key, Checkpoint(p, rs));
    assert rs[..|rs|] == rs;
    LengthBound(p, rs, rs[..n], key);
  }

  lemma RunRecords(p: Platform, seed: Bytes, o: Opening, steps: seq<Amendment>, rs: seq<Value>)
    requires Lawful(p) && |seed| == KEY_SIZE && ArgumentsProper(o, steps) && Run(p, seed, o, steps) == Some(rs)
    ensures AllProper(rs) && forall i | 0 <= i < |rs| :: CanonicalBytes(p.repr, rs[i]).Some?
  {
    hide Lawful, Run, ArgumentsProper, CanonicalBytes, Proper, Verify, Linked;
    RunGrown(p, seed, o, steps, rs);
    NoKeyFits(p, seed);
    forall i | 0 <= i < |rs| ensures CanonicalBytes(p.repr, rs[i]).Some? {
      assert Verify(p, rs[i], None);
      VerifiedFacts(p, rs[i], None);
    }
  }

  /** A checkpoint accepts lists of one length only. */
  lemma LengthBound(p: Platform, rs: seq<Value>, ws: seq<Value>, key: Option<Bytes>)
    requires Checkpoint(p, rs).Some? && ws != []
    ensures CheckpointOk(p, ws, key, Checkpoint(p, rs).value) ==> |ws| == |rs|
  {
    hide ChainOk, Digest;
    CheckpointFields(p, rs, Checkpoint(p, rs).value);
  }
}
