/** Without message loss every copy converges: nothing stays invalid, writing or in a replay state. */
module LinDrain {
  import opened Clock
  import opened Lin
  import opened LinSystem
  import opened LinSafety

  ghost predicate Superseded(s: System, ts: Timestamp) {
    exists later :: later in s.issued && Less(ts, later)
  }

  ghost predicate StillWriting(s: System, ts: Timestamp) {
    ts.cid < |s.lines| && Writing(s.lines[ts.cid]) && StampOf(s, ts.cid) == ts
  }

  /** The write will send updates when its last ack arrives, unless a later write took over. */
  ghost predicate Promised(s: System, ts: Timestamp) {
    StillWriting(s, ts) || Superseded(s, ts)
  }

  ghost predicate UpdComing(s: System, ts: Timestamp, m: nat) {
    exists value :: Upd(ts, m, value) in s.upds
  }

  /** An invalid copy waits for an update that is on its way or promised. */
  ghost predicate InvalidOk(s: System, m: nat)
    requires m < |s.lines|
  {
    s.lines[m].state.Invalid? || s.lines[m].state.InvalidReplay? ==>
      UpdComing(s, StampOf(s, m), m) || Promised(s, StampOf(s, m))
  }

  /** An invalidation in flight is the only one of its kind and its receiver has not seen it. */
  ghost predicate InvNew(s: System, inv: Inv) {
    s.invs[inv] <= 1 && inv.to < |s.lines| && StampOf(s, inv.to) != inv.ts && Promised(s, inv.ts)
  }

  /** A write is still owed an ack by every machine that has neither answered nor overtaken it. */
  ghost predicate AckOwed(s: System, m: nat, x: nat)
    requires m < |s.lines| == |s.acked| && x < |s.lines|
  {
    Writing(s.lines[m]) && x != m ==> Tokens(s, StampOf(s, m), x) >= 1 || Less(StampOf(s, m), StampOf(s, x))
  }

  ghost predicate Live(s: System)
    requires Safe(s)
  {
    && (forall m: nat :: m < |s.lines| ==> InvalidOk(s, m))
    && (forall inv :: inv in s.invs ==> InvNew(s, inv))
    && (forall m: nat, x: nat :: m < |s.lines| && x < |s.lines| ==> AckOwed(s, m, x))
  }

  predicate LossFree(step: Step) {
    !step.LoseInv? && !step.LoseAck? && !step.LoseUpd?
  }

  lemma InitialLive(machines: nat, value: Value)
    requires machines >= 2
    ensures Safe(Initial(machines, value)) && Live(Initial(machines, value))
  {
    InitialSafe(machines, value);
  }

  ghost predicate Finishes(s: System, step: Step, ts: Timestamp)
    requires Enabled(s, step)
  {
    Observe(s, step) == Complete(ts.cid, ts)
  }

  lemma WriteKeptOnAck(s: System, ack: Ack, slot: Value, ts: Timestamp)
    requires |s.acked| == |s.lines| && Enabled(s, DeliverAck(ack, slot)) && StillWriting(s, ts)
    ensures StillWriting(AfterAck(s, ack, slot), ts) || Finishes(s, DeliverAck(ack, slot), ts)
  {
  }

  lemma WriteKeptOnPut(s: System, m: nat, session: nat, value: Value, ts: Timestamp)
    requires |s.acked| == |s.lines| && m < |s.lines| && StillWriting(s, ts)
    ensures Promised(AfterPut(s, m, session, value), ts)
  {
    var t := AfterPut(s, m, session, value);
    if m == ts.cid && OnPut(s.lines[m], session, value, |s.lines|).1.PutSuccess? {
      assert StampOf(t, m) in t.issued;
    }
  }

  lemma WriteKeptOnInv(s: System, inv: Inv, ts: Timestamp)
    requires inv.to < |s.lines| && StillWriting(s, ts) && inv.ts in s.issued
    ensures Promised(AfterInv(s, inv), ts)
  {
    if inv.to == ts.cid && Less(ts, inv.ts) {
      assert inv.ts in AfterInv(s, inv).issued;
    }
  }

  lemma WriteKept(s: System, step: Step, ts: Timestamp)
    requires |s.acked| == |s.lines| && Enabled(s, step) && StillWriting(s, ts)
    requires step.DeliverInv? ==> step.inv.ts in s.issued
    ensures Promised(Next(s, step), ts) || Finishes(s, step, ts)
  {
    match step
    case Put(m, session, value) => WriteKeptOnPut(s, m, session, value, ts);
    case DeliverInv(inv) => WriteKeptOnInv(s, inv, ts);
    case DeliverAck(ack, slot) => WriteKeptOnAck(s, ack, slot, ts);
    case _ => assert StillWriting(Next(s, step), ts);
  }

  /** A promise holds until the write completes, and then the updates are on their way. */
  lemma PromiseKept(s: System, step: Step, ts: Timestamp)
    requires |s.acked| == |s.lines| && Invs(s) && Enabled(s, step) && Promised(s, ts)
    ensures Promised(Next(s, step), ts) || Finishes(s, step, ts)
  {
    if step.DeliverInv? { assert InvOk(s, step.inv); }
    if StillWriting(s, ts) {
      WriteKept(s, step, ts);
    } else {
      var later :| later in s.issued && Less(ts, later);
      assert later in Next(s, step).issued;
    }
  }

  lemma FinishSendsUpdates(s: System, step: Step, ts: Timestamp, x: nat)
    requires Enabled(s, step) && |s.acked| == |s.lines| && Finishes(s, step, ts) && x < |s.lines| && x != ts.cid
    ensures UpdComing(Next(s, step), ts, x)
  {
    var sent := UpdsOf(ts, |s.lines|, step.slot);
    assert sent[Upd(ts, x, step.slot)] == 1;
    assert Upd(ts, x, step.slot) in Next(s, step).upds;
  }

  lemma AckKeepsStamp(s: System, ack: Ack, slot: Value, x: nat)
    requires |s.acked| == |s.lines| && ack.to < |s.lines| && x < |s.lines|
    ensures StampOf(AfterAck(s, ack, slot), x) == StampOf(s, x)
  {
  }

  // ----- Acks owed -----

  lemma AckOwedOnPut(s: System, p: nat, session: nat, value: Value, m: nat, x: nat)
    requires |s.acked| == |s.lines| && p < |s.lines|
    requires m < |s.lines| && x < |s.lines| && AckOwed(s, m, x)
    ensures AckOwed(AfterPut(s, p, session, value), m, x)
  {
    var t := AfterPut(s, p, session, value);
    if OnPut(s.lines[p], session, value, |s.lines|).1.PutSuccess? {
      var ts := StampOf(t, p);
      if p == m {
        assert x != m ==> InvsOf(ts, |s.lines|)[Inv(ts, x)] == 1;
      } else if Writing(s.lines[m]) {
        assert Tokens(t, StampOf(s, m), x) >= Tokens(s, StampOf(s, m), x);
      }
    }
  }

  lemma AckOwedOnInv(s: System, inv: Inv, m: nat, x: nat)
    requires |s.acked| == |s.lines| && inv in s.invs && InvNew(s, inv)
    requires m < |s.lines| && x < |s.lines| && AckOwed(s, m, x)
    ensures AckOwed(AfterInv(s, inv), m, x)
  {
    var t := AfterInv(s, inv);
    if Writing(t.lines[m]) && x != m {
      assert t.lines[m] == s.lines[m];
      var ts := StampOf(s, m);
      if inv == Inv(ts, x) {
        assert Tokens(t, ts, x) == Tokens(s, ts, x) || Less(ts, StampOf(s, x));
      } else {
        assert Tokens(t, ts, x) >= Tokens(s, ts, x);
      }
    }
  }

  lemma AckOwedOnAck(s: System, ack: Ack, slot: Value, m: nat, x: nat)
    requires |s.acked| == |s.lines| && ack in s.acks && ack.to < |s.lines|
    requires m < |s.lines| && x < |s.lines| && AckOwed(s, m, x)
    ensures AckOwed(AfterAck(s, ack, slot), m, x)
  {
    var t := AfterAck(s, ack, slot);
    if Writing(t.lines[m]) && x != m {
      var ts := StampOf(s, m);
      AckKeepsStamp(s, ack, slot, m);
      AckKeepsStamp(s, ack, slot, x);
      if ack == Ack(ts.version, x, m) {
        assert x in t.acked[m];
      } else {
        assert Tokens(t, ts, x) >= Tokens(s, ts, x);
      }
    }
  }

  lemma AckOwedKept(s: System, step: Step, m: nat, x: nat)
    requires |s.acked| == |s.lines| && Enabled(s, step) && LossFree(step)
    requires m < |s.lines| && x < |s.lines| && AckOwed(s, m, x)
    requires step.DeliverInv? ==> InvNew(s, step.inv)
    ensures AckOwed(Next(s, step), m, x)
  {
    match step
    case Get(_) =>
    case Put(p, session, value) => AckOwedOnPut(s, p, session, value, m, x);
    case DeliverInv(inv) => AckOwedOnInv(s, inv, m, x);
    case DeliverAck(ack, slot) => AckOwedOnAck(s, ack, slot, m, x);
    case DeliverUpd(_) =>
  }

  // ----- Invalidations in flight -----

  lemma InvNewOnPut(s: System, m: nat, session: nat, value: Value, inv: Inv)
    requires Safe(s) && m < |s.lines| && inv in AfterPut(s, m, session, value).invs
    requires inv in s.invs ==> InvNew(s, inv)
    ensures InvNew(AfterPut(s, m, session, value), inv)
  {
    var t := AfterPut(s, m, session, value);
    if OnPut(s.lines[m], session, value, |s.lines|).1.PutSuccess? {
      var ts := Timestamp(s.lines[m].version + 2, m);
      assert StampOf(t, m) == ts;
      assert LineOk(s, m);
      NotYetIssued(s, m, ts);
      if inv in s.invs {
        assert InvOk(s, inv);
        PromiseKept(s, Put(m, session, value), inv.ts);
      } else {
        assert inv.ts == ts && StillWriting(t, ts);
        assert LineOk(s, inv.to);
      }
    }
  }

  lemma InvNewOnInv(s: System, d: Inv, inv: Inv)
    requires Safe(s) && d in s.invs && InvNew(s, d) && inv in AfterInv(s, d).invs && InvNew(s, inv)
    ensures InvNew(AfterInv(s, d), inv)
  {
    assert inv != d;
    assert InvOk(s, inv);
    PromiseKept(s, DeliverInv(d), inv.ts);
  }

  /** By the time a write's last ack arrives, all of its invalidations have been delivered. */
  lemma NoInvLeft(s: System, ack: Ack)
    requires Safe(s) && ack in s.acks && ack.to < |s.lines|
    requires OnAck(s.lines[ack.to], ack.to, ack.version).1.LastAckSuccess?
    ensures forall x: nat :: Inv(StampOf(s, ack.to), x) !in s.invs
  {
    var ts := StampOf(s, ack.to);
    LastAckHeardFromAll(s, ack);
    forall x: nat ensures Inv(ts, x) !in s.invs {
      assert Inv(ts, x) in s.invs ==> InvOk(s, Inv(ts, x));
      assert x < |s.lines| ==> TokenOk(s, ack.to, x);
    }
  }

  lemma InvNewOnAck(s: System, ack: Ack, slot: Value, inv: Inv)
    requires Safe(s) && ack in s.acks && ack.to < |s.lines| && inv in s.invs && InvNew(s, inv)
    ensures InvNew(AfterAck(s, ack, slot), inv)
  {
    assert InvOk(s, inv);
    AckKeepsStamp(s, ack, slot, inv.to);
    PromiseKept(s, DeliverAck(ack, slot), inv.ts);
    if OnAck(s.lines[ack.to], ack.to, ack.version).1.LastAckSuccess? { NoInvLeft(s, ack); }
  }

  lemma InvNewOnGet(s: System, m: nat, inv: Inv)
    requires Safe(s) && m < |s.lines| && inv in s.invs && InvNew(s, inv)
    ensures InvNew(Next(s, Get(m)), inv)
  {
    PromiseKept(s, Get(m), inv.ts);
  }

  lemma InvNewOnUpd(s: System, upd: Upd, inv: Inv)
    requires Safe(s) && upd in s.upds && upd.to < |s.lines| && inv in s.invs && InvNew(s, inv)
    ensures InvNew(AfterUpd(s, upd), inv)
  {
    PromiseKept(s, DeliverUpd(upd), inv.ts);
  }

  lemma InvNewKept(s: System, step: Step, inv: Inv)
    requires Safe(s) && Enabled(s, step) && LossFree(step) && inv in Next(s, step).invs
    requires (step.DeliverInv? ==> InvNew(s, step.inv)) && (inv in s.invs ==> InvNew(s, inv))
    ensures InvNew(Next(s, step), inv)
  {
    match step
    case Get(m) => InvNewOnGet(s, m, inv);
    case Put(m, session, value) => InvNewOnPut(s, m, session, value, inv);
    case DeliverInv(d) => InvNewOnInv(s, d, inv);
    case DeliverAck(ack, slot) => InvNewOnAck(s, ack, slot, inv);
    case DeliverUpd(upd) => InvNewOnUpd(s, upd, inv);
  }

  // ----- Invalid copies -----

  lemma InvalidOnUpd(s: System, upd: Upd, m: nat)
    requires |s.acked| == |s.lines| && Invs(s) && upd in s.upds && upd.to < |s.lines|
    requires m < |s.lines| && InvalidOk(s, m)
    ensures InvalidOk(AfterUpd(s, upd), m)
  {
    var t := AfterUpd(s, upd);
    var ts := StampOf(s, m);
    if t.lines[m].state.Invalid? || t.lines[m].state.InvalidReplay? {
      assert t.lines[m] == s.lines[m];
      if Promised(s, ts) {
        PromiseKept(s, DeliverUpd(upd), ts);
      } else {
        var value :| Upd(ts, m, value) in s.upds;
        assert upd != Upd(ts, m, value);
        assert Upd(ts, m, value) in t.upds;
      }
    }
  }

  /** An ack leaves invalid lines and updates in flight alone. */
  lemma AckLeaves(s: System, ack: Ack, slot: Value, m: nat)
    requires |s.acked| == |s.lines| && ack.to < |s.lines| && m < |s.lines|
    ensures var l := AfterAck(s, ack, slot).lines[m]; l.state.Invalid? || l.state.InvalidReplay? ==> l == s.lines[m]
    ensures s.upds <= AfterAck(s, ack, slot).upds
  {
  }

  predicate IsInvalidLine(l: Line) {
    l.state.Invalid? || l.state.InvalidReplay?
  }

  lemma ComingOnAck(s: System, ack: Ack, slot: Value, ts: Timestamp, m: nat)
    requires |s.acked| == |s.lines| && Invs(s) && ack in s.acks && ack.to < |s.lines| && m < |s.lines|
    requires ts == StampOf(s, m) && IsInvalidLine(s.lines[m]) && (UpdComing(s, ts, m) || Promised(s, ts))
    ensures UpdComing(AfterAck(s, ack, slot), ts, m) || Promised(AfterAck(s, ack, slot), ts)
  {
    if Promised(s, ts) {
      PromiseKept(s, DeliverAck(ack, slot), ts);
      if Finishes(s, DeliverAck(ack, slot), ts) { FinishSendsUpdates(s, DeliverAck(ack, slot), ts, m); }
    } else {
      AckLeaves(s, ack, slot, m);
      var value :| Upd(ts, m, value) in s.upds;
      assert Upd(ts, m, value) in AfterAck(s, ack, slot).upds;
    }
  }

  lemma InvalidOnAck(s: System, ack: Ack, slot: Value, m: nat)
    requires |s.acked| == |s.lines| && Invs(s) && ack in s.acks && ack.to < |s.lines|
    requires m < |s.lines| && InvalidOk(s, m)
    ensures InvalidOk(AfterAck(s, ack, slot), m)
  {
    AckLeaves(s, ack, slot, m);
    if IsInvalidLine(AfterAck(s, ack, slot).lines[m]) { ComingOnAck(s, ack, slot, StampOf(s, m), m); }
  }

  lemma InvalidOnInv(s: System, inv: Inv, m: nat)
    requires |s.acked| == |s.lines| && Invs(s) && inv in s.invs && InvNew(s, inv) && m < |s.lines| && InvalidOk(s, m)
    ensures InvalidOk(AfterInv(s, inv), m)
  {
    var t := AfterInv(s, inv);
    var ts := StampOf(t, m);
    if t.lines[m].state.Invalid? || t.lines[m].state.InvalidReplay? {
      assert t.lines[m] == s.lines[m] || ts == inv.ts;
      if Promised(s, ts) {
        PromiseKept(s, DeliverInv(inv), ts);
      } else {
        var value :| Upd(ts, m, value) in s.upds;
        assert Upd(ts, m, value) in t.upds;
      }
    }
  }

  lemma InvalidOnPut(s: System, p: nat, session: nat, value: Value, m: nat)
    requires |s.acked| == |s.lines| && Invs(s) && p < |s.lines| && m < |s.lines| && InvalidOk(s, m)
    ensures InvalidOk(AfterPut(s, p, session, value), m)
  {
    var t := AfterPut(s, p, session, value);
    var ts := StampOf(s, m);
    if t.lines[m].state.Invalid? || t.lines[m].state.InvalidReplay? {
      assert t.lines[m] == s.lines[m];
      if Promised(s, ts) { PromiseKept(s, Put(p, session, value), ts); }
    }
  }

  lemma InvalidOnGet(s: System, p: nat, m: nat)
    requires |s.acked| == |s.lines| && Invs(s) && p < |s.lines| && m < |s.lines| && InvalidOk(s, m)
    ensures InvalidOk(Next(s, Get(p)), m)
  {
    var ts := StampOf(s, m);
    assert StampOf(Next(s, Get(p)), m) == ts;
    if Promised(s, ts) { PromiseKept(s, Get(p), ts); }
  }

  lemma InvalidKept(s: System, step: Step, m: nat)
    requires |s.acked| == |s.lines| && Invs(s) && Enabled(s, step) && LossFree(step)
    requires m < |s.lines| && InvalidOk(s, m) && (step.DeliverInv? ==> InvNew(s, step.inv))
    ensures InvalidOk(Next(s, step), m)
  {
    match step
    case Get(p) => InvalidOnGet(s, p, m);
    case Put(p, session, value) => InvalidOnPut(s, p, session, value, m);
    case DeliverInv(inv) => InvalidOnInv(s, inv, m);
    case DeliverAck(ack, slot) => InvalidOnAck(s, ack, slot, m);
    case DeliverUpd(upd) => InvalidOnUpd(s, upd, m);
  }

  lemma LiveKept(s: System, step: Step)
    requires Safe(s) && Live(s) && Enabled(s, step) && LossFree(step) && Safe(Next(s, step))
    ensures Live(Next(s, step))
  {
    var t := Next(s, step);
    forall m: nat | m < |t.lines| ensures InvalidOk(t, m) { InvalidKept(s, step, m); }
    assert step.DeliverInv? ==> InvNew(s, step.inv);
    forall inv | inv in t.invs ensures InvNew(t, inv) { InvNewKept(s, step, inv); }
    forall m: nat, x: nat | m < |t.lines| && x < |t.lines| ensures AckOwed(t, m, x) { AckOwedKept(s, step, m, x); }
  }

  lemma StepLive(s: System, step: Step)
    requires Safe(s) && Live(s) && Enabled(s, step) && LossFree(step)
    ensures Safe(Next(s, step)) && Live(Next(s, step))
  {
    StepSafe(s, step);
    LiveKept(s, step);
  }

  // ----- Convergence -----

  ghost predicate Drained(s: System) {
    s.invs == multiset{} && s.acks == multiset{} && s.upds == multiset{}
  }

  /** Every copy is readable, at the largest clock ever issued. */
  ghost predicate Converged(s: System) {
    && s.committed in s.issued
    && (forall ts :: ts in s.issued ==> AtMost(ts, s.committed))
    && forall m: nat :: m < |s.lines| ==> s.lines[m].state.Valid? && StampOf(s, m) == s.committed
  }

  lemma {:induction false} Largest(keys: set<Timestamp>) returns (largest: Timestamp)
    requires keys != {}
    ensures largest in keys && forall ts :: ts in keys ==> AtMost(ts, largest)
  {
    var first :| first in keys;
    var rest := keys - {first};
    largest := first;
    if rest != {} {
      var other := Largest(rest);
      largest := if Less(first, other) then other else first;
    }
    forall ts | ts in keys ensures AtMost(ts, largest) { assert ts == first || ts in rest; }
  }

  lemma HeardFromAll(s: System, m: nat)
    requires |s.acked| == |s.lines| && m < |s.lines| && Drained(s) && Writing(s.lines[m])
    requires forall x :: x in s.acked[m] ==> x < |s.lines| && x != m
    requires forall x: nat :: x < |s.lines| && x != m ==> Tokens(s, StampOf(s, m), x) >= 1
    ensures |s.acked[m]| == |s.lines| - 1
  {
    var others := Machines(|s.lines|) - {m};
    forall x | x in others ensures x in s.acked[m] { assert Tokens(s, StampOf(s, m), x) >= 1; }
    assert s.acked[m] == others;
  }

  /** With nothing in flight, a machine at the largest clock is not waiting for anything. */
  lemma TopIsValid(s: System, top: Timestamp, m: nat)
    requires Safe(s) && Live(s) && Drained(s) && m < |s.lines| && StampOf(s, m) == top
    requires forall ts :: ts in s.issued ==> AtMost(ts, top)
    requires m == top.cid || !StillWriting(s, top)
    ensures s.lines[m].state.Valid?
  {
    assert InvalidOk(s, m) && WriterOk(s, m);
    assert forall x :: x in s.acked[m] && Writing(s.lines[m]) ==> CaughtUp(s, m, x);
    if Writing(s.lines[m]) {
      forall x: nat | x < |s.lines| && x != m ensures Tokens(s, top, x) >= 1 {
        assert AckOwed(s, m, x) && LineOk(s, x);
      }
      HeardFromAll(s, m);
    }
  }

  lemma DrainedConverged(s: System)
    requires Safe(s) && Live(s) && Drained(s)
    ensures Converged(s)
  {
    var top := Largest(s.issued.Keys);
    assert ClockOk(s, top);
    assert LineOk(s, top.cid);
    TopIsValid(s, top, top.cid);
    forall m: nat | m < |s.lines| ensures s.lines[m].state.Valid? && StampOf(s, m) == top {
      assert LineOk(s, m);
      TopIsValid(s, top, m);
    }
  }

  /** In every loss-free run that has delivered all it sent, the copies have converged. */
  lemma {:induction false} RunConverges(s: System, steps: seq<Step>)
    requires Safe(s) && Live(s) && Runs(s, steps) && forall i :: 0 <= i < |steps| ==> LossFree(steps[i])
    requires Drained(Final(s, steps))
    ensures Converged(Final(s, steps))
    decreases |steps|
  {
    if steps == [] {
      DrainedConverged(s);
    } else {
      StepLive(s, steps[0]);
      RunConverges(Next(s, steps[0]), steps[1..]);
    }
  }

  lemma QuiescentConverges(machines: nat, value: Value, steps: seq<Step>)
    requires machines >= 2 && Runs(Initial(machines, value), steps)
    requires forall i :: 0 <= i < |steps| ==> LossFree(steps[i])
    requires Drained(Final(Initial(machines, value), steps))
    ensures Converged(Final(Initial(machines, value), steps))
  {
    InitialLive(machines, value);
    RunConverges(Initial(machines, value), steps);
  }

  // ----- Delivery always drains -----

  predicate Delivery(step: Step) {
    step.DeliverInv? || step.DeliverAck? || step.DeliverUpd?
  }

  /** A scheduler that, while messages are in flight, picks any one of them to deliver. */
  ghost predicate Delivers(choose: System -> Step) {
    forall s :: !Drained(s) && Safe(s) ==> Enabled(s, choose(s)) && Delivery(choose(s))
  }

  /** An invalidation can cause an ack and an ack can cause updates, never the other way round. */
  ghost predicate Fewer(t: System, s: System) {
    || |t.invs| < |s.invs|
    || (|t.invs| == |s.invs| && |t.acks| < |s.acks|)
    || (|t.invs| == |s.invs| && |t.acks| == |s.acks| && |t.upds| < |s.upds|)
  }

  lemma DeliveryShrinks(s: System, step: Step)
    requires |s.acked| == |s.lines| && Enabled(s, step) && Delivery(step)
    ensures Fewer(Next(s, step), s)
  {
    match step
    case DeliverInv(inv) => assert |AfterInv(s, inv).invs| == |s.invs| - 1;
    case DeliverAck(ack, slot) => assert |AfterAck(s, ack, slot).acks| == |s.acks| - 1;
    case DeliverUpd(upd) => assert |AfterUpd(s, upd).upds| == |s.upds| - 1;
  }

  /** Where deliveries alone lead, in whatever order the scheduler makes them. */
  ghost function Drain(s: System, choose: System -> Step): System
    requires Safe(s) && Delivers(choose)
    decreases |s.invs|, |s.acks|, |s.upds|
  {
    if Drained(s) then s
    else
      var t := Next(s, choose(s));
      assert Safe(t) && Fewer(t, s) by { StepSafe(s, choose(s)); DeliveryShrinks(s, choose(s)); }
      Drain(t, choose)
  }

  /** Every order of delivery ends, and ends with all copies readable at the largest clock issued. */
  lemma {:induction false} EveryScheduleConverges(s: System, choose: System -> Step)
    requires Safe(s) && Live(s) && Delivers(choose)
    ensures Drained(Drain(s, choose)) && Converged(Drain(s, choose))
    decreases |s.invs|, |s.acks|, |s.upds|
  {
    if Drained(s) {
      DrainedConverged(s);
    } else {
      StepLive(s, choose(s));
      DeliveryShrinks(s, choose(s));
      EveryScheduleConverges(Next(s, choose(s)), choose);
    }
  }
}
