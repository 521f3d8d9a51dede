/**
 Once a write of the linearizable protocol completes, its version is closed: no write with the same version and a
 larger machine id exists or ever will. A readable copy is therefore only invalidated by a larger version.
 */
module LinRivals {
  import opened Clock
  import opened Lin
  import opened LinSystem
  import opened LinSafety

  /** Machine `x` did not write at this version above machine `m`. */
  ghost predicate NoRival(s: System, version: nat, m: nat, x: nat) {
    x > m ==> Timestamp(version, x) !in s.issued
  }

  ghost predicate WriterAlone(s: System, m: nat)
    requires |s.acked| == |s.lines| && m < |s.lines|
  {
    Writing(s.lines[m]) ==> forall x :: x in s.acked[m] ==> NoRival(s, s.lines[m].version, m, x)
  }

  ghost predicate VersionClosed(s: System) {
    forall x: nat :: NoRival(s, s.committed.version, s.committed.cid, x)
  }

  /** A machine that acked a write did not write above it at its version, and nobody did above a completed one. */
  ghost predicate Alone(s: System)
    requires |s.acked| == |s.lines|
  {
    && VersionClosed(s)
    && (forall m: nat :: m < |s.lines| ==> WriterAlone(s, m))
    && (forall ack :: ack in s.acks ==> NoRival(s, ack.version, ack.to, ack.from))
  }

  lemma PutAlone(s: System, m: nat, session: nat, value: Value)
    requires Safe(s) && Alone(s) && m < |s.lines|
    ensures Alone(AfterPut(s, m, session, value))
  {
    var t := AfterPut(s, m, session, value);
    assert LineOk(s, m);
    if OnPut(s.lines[m], session, value, |s.lines|).1.PutSuccess? {
      forall w: nat | w < |t.lines| ensures WriterAlone(t, w) {
        assert WriterAlone(s, w) && WriterOk(s, w);
        forall x | w != m && Writing(t.lines[w]) && x in t.acked[w] ensures NoRival(t, t.lines[w].version, w, x) {
          assert NoRival(s, s.lines[w].version, w, x) && CaughtUp(s, w, x);
        }
      }
      forall ack | ack in t.acks ensures NoRival(t, ack.version, ack.to, ack.from) {
        assert NoRival(s, ack.version, ack.to, ack.from) && AckOk(s, ack);
      }
      forall x: nat ensures NoRival(t, t.committed.version, t.committed.cid, x) {
        assert NoRival(s, s.committed.version, s.committed.cid, x);
      }
    }
  }

  /** A machine acks only what is above everything it wrote. */
  lemma InvAlone(s: System, inv: Inv)
    requires Safe(s) && Alone(s) && inv in s.invs && inv.to < |s.lines|
    ensures Alone(AfterInv(s, inv))
  {
    var t := AfterInv(s, inv);
    assert Timestamp(inv.ts.version, inv.to) in s.issued ==> ClockOk(s, Timestamp(inv.ts.version, inv.to));
    forall ack | ack in t.acks ensures NoRival(t, ack.version, ack.to, ack.from) {
      assert ack in s.acks ==> NoRival(s, ack.version, ack.to, ack.from);
    }
    forall m: nat | m < |t.lines| ensures WriterAlone(t, m) { StillAlone(s, t, m); }
    forall x: nat ensures NoRival(t, t.committed.version, t.committed.cid, x) {
      assert NoRival(s, s.committed.version, s.committed.cid, x);
    }
  }

  lemma StillAlone(s: System, t: System, m: nat)
    requires |s.acked| == |s.lines| == |t.lines| == |t.acked| && m < |s.lines| && WriterAlone(s, m)
    requires t.issued == s.issued && t.acked[m] == s.acked[m]
    requires Writing(t.lines[m]) ==> Writing(s.lines[m]) && t.lines[m].version == s.lines[m].version
    ensures WriterAlone(t, m)
  {
    forall x | Writing(t.lines[m]) && x in t.acked[m] ensures NoRival(t, t.lines[m].version, m, x) {
      assert NoRival(s, s.lines[m].version, m, x);
    }
  }

  lemma WritersAfterAck(s: System, ack: Ack, slot: Value)
    requires |s.acked| == |s.lines| && ack.to < |s.lines| && NoRival(s, ack.version, ack.to, ack.from)
    requires forall m: nat :: m < |s.lines| ==> WriterAlone(s, m)
    ensures forall m: nat :: m < |s.lines| ==> WriterAlone(AfterAck(s, ack, slot), m)
  {
    var t := AfterAck(s, ack, slot);
    forall m: nat | m < |t.lines| ensures WriterAlone(t, m) {
      if m != ack.to { StillAlone(s, t, m); } else { CountedAlone(s, ack, slot); }
    }
  }

  lemma AckAlone(s: System, ack: Ack, slot: Value)
    requires Safe(s) && Alone(s) && ack in s.acks && ack.to < |s.lines|
    ensures Alone(AfterAck(s, ack, slot))
  {
    WritersAfterAck(s, ack, slot);
    AckCloses(s, ack, slot);
    var t := AfterAck(s, ack, slot);
    forall a | a in t.acks ensures NoRival(t, a.version, a.to, a.from) {
      assert NoRival(s, a.version, a.to, a.from);
    }
  }

  lemma AckCloses(s: System, ack: Ack, slot: Value)
    requires Safe(s) && Alone(s) && ack in s.acks && ack.to < |s.lines|
    ensures VersionClosed(AfterAck(s, ack, slot))
  {
    var t := AfterAck(s, ack, slot);
    forall x: nat ensures NoRival(t, t.committed.version, t.committed.cid, x) {
      if OnAck(s.lines[ack.to], ack.to, ack.version).1.LastAckSuccess? {
        LastAckAlone(s, ack, x);
      } else {
        assert NoRival(s, s.committed.version, s.committed.cid, x);
      }
    }
  }

  lemma CountedAlone(s: System, ack: Ack, slot: Value)
    requires |s.acked| == |s.lines| && ack.to < |s.lines|
    requires NoRival(s, ack.version, ack.to, ack.from) && WriterAlone(s, ack.to)
    ensures WriterAlone(AfterAck(s, ack, slot), ack.to)
  {
    var t, m := AfterAck(s, ack, slot), ack.to;
    forall x | Writing(t.lines[m]) && x in t.acked[m] ensures NoRival(t, t.lines[m].version, m, x) {
      assert x in s.acked[m] ==> NoRival(s, s.lines[m].version, m, x);
    }
  }

  /** All the other machines acked, so none of them wrote above the completed write at its version. */
  lemma LastAckAlone(s: System, ack: Ack, x: nat)
    requires Safe(s) && Alone(s) && ack in s.acks && ack.to < |s.lines|
    requires OnAck(s.lines[ack.to], ack.to, ack.version).1.LastAckSuccess?
    ensures NoRival(s, ack.version, ack.to, x)
  {
    LastAckHeardFromAll(s, ack);
    assert WriterAlone(s, ack.to) && NoRival(s, ack.version, ack.to, ack.from);
    if Timestamp(ack.version, x) in s.issued && x > ack.to {
      assert ClockOk(s, Timestamp(ack.version, x));
      assert x in s.acked[ack.to] ==> NoRival(s, s.lines[ack.to].version, ack.to, x);
    }
  }

  /** Gets, updates and losses change neither what was written nor who acked it. */
  lemma QuietAlone(s: System, t: System)
    requires |s.acked| == |s.lines| == |t.lines| && Alone(s)
    requires t.issued == s.issued && t.acked == s.acked && t.committed == s.committed && t.acks <= s.acks
    requires forall m: nat :: m < |s.lines| && Writing(t.lines[m]) ==>
               Writing(s.lines[m]) && t.lines[m].version == s.lines[m].version
    ensures Alone(t)
  {
    forall m: nat | m < |t.lines| ensures WriterAlone(t, m) { StillAlone(s, t, m); }
    forall ack | ack in t.acks ensures NoRival(t, ack.version, ack.to, ack.from) {
      assert NoRival(s, ack.version, ack.to, ack.from);
    }
    forall x: nat ensures NoRival(t, t.committed.version, t.committed.cid, x) {
      assert NoRival(s, s.committed.version, s.committed.cid, x);
    }
  }

  lemma GetAlone(s: System, m: nat)
    requires |s.acked| == |s.lines| && Alone(s) && m < |s.lines|
    ensures Alone(Next(s, Get(m)))
  {
    QuietAlone(s, Next(s, Get(m)));
  }

  lemma UpdAlone(s: System, upd: Upd)
    requires |s.acked| == |s.lines| && Alone(s) && upd.to < |s.lines|
    ensures Alone(AfterUpd(s, upd))
  {
    QuietAlone(s, AfterUpd(s, upd));
  }

  lemma LossAlone(s: System, step: Step)
    requires |s.acked| == |s.lines| && Alone(s) && Enabled(s, step) && (step.LoseInv? || step.LoseAck? || step.LoseUpd?)
    ensures Alone(Next(s, step))
  {
    QuietAlone(s, Next(s, step));
  }

  lemma StepAlone(s: System, step: Step)
    requires Safe(s) && Alone(s) && Enabled(s, step)
    ensures Alone(Next(s, step))
  {
    match step
    case Put(m, session, value) => PutAlone(s, m, session, value);
    case DeliverInv(inv) => InvAlone(s, inv);
    case DeliverAck(ack, slot) => AckAlone(s, ack, slot);
    case Get(m) => GetAlone(s, m);
    case DeliverUpd(upd) => UpdAlone(s, upd);
    case _ => LossAlone(s, step);
  }

  lemma {:induction false} RunAlone(s: System, steps: seq<Step>)
    requires Safe(s) && Alone(s) && Runs(s, steps)
    ensures Safe(Final(s, steps)) && Alone(Final(s, steps))
    decreases |steps|
  {
    if steps == [] {
    } else {
      StepSafe(s, steps[0]);
      StepAlone(s, steps[0]);
      RunAlone(Next(s, steps[0]), steps[1..]);
    }
  }

  lemma SafeReadableNeedsLarger(s: System, inv: Inv)
    requires Safe(s) && Alone(s) && inv in s.invs && inv.to < |s.lines| && s.lines[inv.to].state.Valid?
    requires OnInv(s.lines[inv.to], inv.to, inv.ts).1.InvSuccess?
    ensures inv.ts.version > s.lines[inv.to].version
  {
    assert LineOk(s, inv.to) && InvOk(s, inv);
    assert NoRival(s, s.committed.version, s.committed.cid, inv.ts.cid);
  }

  /** In every reachable state, an invalidation that a readable copy would accept carries a larger version. */
  lemma ReadableNeedsLargerVersion(machines: nat, value: Value, steps: seq<Step>, inv: Inv)
    requires machines >= 2 && Runs(Initial(machines, value), steps)
    requires var s := Final(Initial(machines, value), steps);
             && inv in s.invs && inv.to < |s.lines| && s.lines[inv.to].state.Valid?
             && OnInv(s.lines[inv.to], inv.to, inv.ts).1.InvSuccess?
    ensures inv.ts.version > Final(Initial(machines, value), steps).lines[inv.to].version
  {
    InitialSafe(machines, value);
    RunAlone(Initial(machines, value), steps);
    SafeReadableNeedsLarger(Final(Initial(machines, value), steps), inv);
  }
}
