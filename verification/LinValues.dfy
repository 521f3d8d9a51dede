/**
 What the linearizable protocol does to values. The update that follows a last ack is sent from the
 buffer the ack was received into, and an ack overwrites only the key and opcode there. The value bytes
 are whatever that buffer held before, so replicas get the written value exactly when those bytes match.
 */
module LinValues {
  import opened Clock
  import opened Lin
  import opened LinSystem
  import opened LinSafety

  /** A readable copy holds the value of the last completed write, and a writer's copy its own. */
  ghost predicate ValueOk(s: System, m: nat)
    requires m < |s.lines|
  {
    && (s.lines[m].state.Valid? ==> s.committed in s.issued && s.lines[m].value == s.issued[s.committed])
    && (Writing(s.lines[m]) ==> StampOf(s, m) in s.issued && s.lines[m].value == s.issued[StampOf(s, m)])
  }

  ghost predicate PayloadOk(s: System, upd: Upd) {
    upd.ts in s.issued && upd.value == s.issued[upd.ts]
  }

  ghost predicate Faithful(s: System) {
    && (forall m: nat :: m < |s.lines| ==> ValueOk(s, m))
    && (forall upd :: upd in s.upds ==> PayloadOk(s, upd))
  }

  predicate IsLastAck(s: System, step: Step) {
    step.DeliverAck? && Enabled(s, step) && OnAck(s.lines[step.ack.to], step.ack.to, step.ack.version).1.LastAckSuccess?
  }

  /** A completing step finds the written value already in its receive buffer. */
  predicate Honest(s: System, step: Step) {
    IsLastAck(s, step) ==> step.slot == s.lines[step.ack.to].value
  }

  lemma PutFaithful(s: System, m: nat, session: nat, value: Value)
    requires Safe(s) && Faithful(s) && m < |s.lines|
    ensures Faithful(AfterPut(s, m, session, value))
  {
    var t := AfterPut(s, m, session, value);
    if OnPut(s.lines[m], session, value, |s.lines|).1.PutSuccess? {
      var ts := Timestamp(s.lines[m].version + 2, m);
      assert LineOk(s, m);
      NotYetIssued(s, m, ts);
      forall x: nat | x < |t.lines| ensures ValueOk(t, x) { assert ValueOk(s, x); }
      forall upd | upd in t.upds ensures PayloadOk(t, upd) { assert PayloadOk(s, upd); }
    }
  }

  lemma UpdFaithful(s: System, upd: Upd)
    requires Safe(s) && Faithful(s) && upd in s.upds && upd.to < |s.lines|
    ensures Faithful(AfterUpd(s, upd))
  {
    var t := AfterUpd(s, upd);
    assert UpdOk(s, upd) && LineOk(s, upd.to) && PayloadOk(s, upd);
    forall x: nat | x < |t.lines| ensures ValueOk(t, x) { assert ValueOk(s, x); }
    forall u | u in t.upds ensures PayloadOk(t, u) { assert PayloadOk(s, u); }
  }

  lemma AckFaithful(s: System, ack: Ack, slot: Value)
    requires Safe(s) && Faithful(s) && ack in s.acks && ack.to < |s.lines| && !IsLastAck(s, DeliverAck(ack, slot))
    ensures Faithful(AfterAck(s, ack, slot))
  {
    var t := AfterAck(s, ack, slot);
    forall x: nat | x < |t.lines| ensures ValueOk(t, x) { assert ValueOk(s, x); }
    forall u | u in t.upds ensures PayloadOk(t, u) { assert PayloadOk(s, u); }
  }

  /** Completing a write keeps the copies faithful if and only if the receive buffer held the written value. */
  lemma LastAckFaithfulIff(s: System, ack: Ack, slot: Value)
    requires Safe(s) && Faithful(s) && IsLastAck(s, DeliverAck(ack, slot))
    ensures Faithful(AfterAck(s, ack, slot)) <==> slot == s.lines[ack.to].value
  {
    var t := AfterAck(s, ack, slot);
    var ts := Timestamp(ack.version, ack.to);
    assert LineOk(s, ack.to) && AckOk(s, ack) && ValueOk(s, ack.to);
    LastAckHeardFromAll(s, ack);
    var sent := Upd(ts, ack.from, slot);
    assert UpdsOf(ts, |s.lines|, slot)[sent] == 1;
    assert sent in t.upds;
    if Faithful(t) {
      assert PayloadOk(t, sent);
    }
    if slot == s.lines[ack.to].value {
      forall x: nat | x < |t.lines| ensures ValueOk(t, x) { assert ValueOk(s, x) && LineOk(s, x); }
      forall u | u in t.upds ensures PayloadOk(t, u) { assert u in s.upds ==> PayloadOk(s, u); }
    }
  }

  /** A step that moves no value, issues none and adds no update keeps the copies faithful. */
  lemma StillFaithful(s: System, t: System)
    requires Faithful(s) && |t.lines| == |s.lines| && t.committed == s.committed && t.issued == s.issued
    requires forall upd :: upd in t.upds ==> upd in s.upds
    requires forall m: nat :: m < |s.lines| ==> ValueOk(s, m) ==> ValueOk(t, m)
    ensures Faithful(t)
  {
    forall m: nat | m < |t.lines| ensures ValueOk(t, m) { assert ValueOk(s, m); }
    forall upd | upd in t.upds ensures PayloadOk(t, upd) { assert PayloadOk(s, upd); }
  }

  lemma GetFaithful(s: System, m: nat)
    requires |s.acked| == |s.lines| && Faithful(s) && m < |s.lines|
    ensures Faithful(Next(s, Get(m)))
  {
    StillFaithful(s, Next(s, Get(m)));
  }

  lemma InvFaithful(s: System, inv: Inv)
    requires Faithful(s) && inv.to < |s.lines|
    ensures Faithful(AfterInv(s, inv))
  {
    StillFaithful(s, AfterInv(s, inv));
  }

  lemma FewerUpdsFaithful(s: System, t: System)
    requires Faithful(s) && t.lines == s.lines && t.committed == s.committed && t.issued == s.issued && t.upds <= s.upds
    ensures Faithful(t)
  {
    StillFaithful(s, t);
  }

  lemma LossFaithful(s: System, step: Step)
    requires |s.acked| == |s.lines| && Faithful(s) && Enabled(s, step)
    requires step.LoseInv? || step.LoseAck? || step.LoseUpd?
    ensures Faithful(Next(s, step))
  {
    FewerUpdsFaithful(s, Next(s, step));
  }

  lemma StepFaithful(s: System, step: Step)
    requires Safe(s) && Faithful(s) && Enabled(s, step) && Honest(s, step)
    ensures Faithful(Next(s, step))
  {
    match step
    case Put(m, session, value) => PutFaithful(s, m, session, value);
    case DeliverUpd(upd) => UpdFaithful(s, upd);
    case DeliverAck(ack, slot) =>
      if IsLastAck(s, step) { LastAckFaithfulIff(s, ack, slot); } else { AckFaithful(s, ack, slot); }
    case Get(m) => GetFaithful(s, m);
    case DeliverInv(inv) => InvFaithful(s, inv);
    case _ => LossFaithful(s, step);
  }

  ghost predicate HonestRun(s: System, steps: seq<Step>)
    requires Runs(s, steps)
    decreases |steps|
  {
    steps == [] || (Honest(s, steps[0]) && HonestRun(Next(s, steps[0]), steps[1..]))
  }

  lemma {:induction false} RunFaithful(s: System, steps: seq<Step>)
    requires Safe(s) && Faithful(s) && Runs(s, steps) && HonestRun(s, steps)
    ensures Faithful(Final(s, steps))
    decreases |steps|
  {
    if steps == [] {
    } else {
      StepSafe(s, steps[0]);
      StepFaithful(s, steps[0]);
      RunFaithful(Next(s, steps[0]), steps[1..]);
    }
  }

  lemma RunCons(s: System, step: Step, rest: seq<Step>)
    requires |s.acked| == |s.lines| && Enabled(s, step) && Runs(Next(s, step), rest)
    ensures Runs(s, [step] + rest) && Final(s, [step] + rest) == Final(Next(s, step), rest)
  {
    assert ([step] + rest)[1..] == rest;
  }

  const TS := Timestamp(2, 0)

  lemma WriteBegins(initial: Value, value: Value) returns (s: System)
    ensures s == Next(Initial(2, initial), Put(0, 0, value))
    ensures s.lines == [Line(Write, 1, 0, 2, value), Line(Valid, 0, 0, 0, initial)]
    ensures |s.acked| == 2 && Inv(TS, 1) in s.invs
  {
    var s0 := Initial(2, initial);
    assert s0.lines == [Line(Valid, 0, 0, 0, initial), Line(Valid, 0, 0, 0, initial)];
    s := AfterPut(s0, 0, 0, value);
    assert InvsOf(TS, |s0.lines|)[Inv(TS, 1)] == 1;
  }

  lemma ReplicaInvalidated(s: System, a: Line, b: Line)
    requires s.lines == [a, b] && Inv(TS, 1) in s.invs && b.state.Valid? && b.version == 0
    ensures AfterInv(s, Inv(TS, 1)).lines == [a, b.(state := Invalid, cid := 0, version := 2)]
    ensures Ack(2, 1, 0) in AfterInv(s, Inv(TS, 1)).acks
  {
  }

  lemma WriteCompletes(s: System, a: Line, b: Line, slot: Value)
    requires s.lines == [a, b] && |s.acked| == 2 && a.state.Write? && a.version == 2 && a.pendingAcks == 1
    ensures AfterAck(s, Ack(2, 1, 0), slot).lines == [a.(state := Valid, cid := 0, pendingAcks := 0), b]
    ensures Upd(TS, 1, slot) in AfterAck(s, Ack(2, 1, 0), slot).upds
  {
    assert UpdsOf(TS, |s.lines|, slot)[Upd(TS, 1, slot)] == 1;
  }

  lemma ReplicaUpdated(s: System, a: Line, b: Line, slot: Value)
    requires s.lines == [a, b] && b.state.Invalid? && b.version == 2 && b.cid == 0
    ensures AfterUpd(s, Upd(TS, 1, slot)).lines == [a, b.(state := Valid, value := slot)]
  {
  }

  /** Two machines, one write: both end readable at the same clock, the replica with whatever the buffer held. */
  lemma BufferReachesReplica(initial: Value, value: Value, slot: Value) returns (steps: seq<Step>)
    ensures Runs(Initial(2, initial), steps)
    ensures Final(Initial(2, initial), steps).lines == [Line(Valid, 0, 0, 2, value), Line(Valid, 0, 0, 2, slot)]
  {
    var s1 := WriteBegins(initial, value);
    ReplicaInvalidated(s1, s1.lines[0], s1.lines[1]);
    var s2 := AfterInv(s1, Inv(TS, 1));
    WriteCompletes(s2, s2.lines[0], s2.lines[1], slot);
    var s3 := AfterAck(s2, Ack(2, 1, 0), slot);
    ReplicaUpdated(s3, s3.lines[0], s3.lines[1], slot);
    steps := [];
    RunCons(s3, DeliverUpd(Upd(TS, 1, slot)), steps);
    steps := [DeliverUpd(Upd(TS, 1, slot))] + steps;
    RunCons(s2, DeliverAck(Ack(2, 1, 0), slot), steps);
    steps := [DeliverAck(Ack(2, 1, 0), slot)] + steps;
    RunCons(s1, DeliverInv(Inv(TS, 1)), steps);
    steps := [DeliverInv(Inv(TS, 1))] + steps;
    RunCons(Initial(2, initial), Put(0, 0, value), steps);
    steps := [Put(0, 0, value)] + steps;
  }

  /** So replicas can be readable at one clock with different values: 7 was written and the other copy reads 0. */
  lemma ReplicasCanDiffer() returns (steps: seq<Step>)
    ensures Runs(Initial(2, 1), steps)
    ensures var t := Final(Initial(2, 1), steps);
            && |t.lines| == 2 && t.lines[0].state.Valid? && t.lines[1].state.Valid?
            && StampOf(t, 0) == StampOf(t, 1) && t.lines[0].value == 7 && t.lines[1].value == 0
  {
    steps := BufferReachesReplica(1, 7, 0);
  }
}
