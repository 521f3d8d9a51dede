/** What every run of the linearizable protocol shows its clients. */
module LinRegister {
  import opened Clock
  import opened Lin
  import opened LinSystem
  import opened LinSafety

  lemma {:induction false} RunSafe(s: System, steps: seq<Step>)
    requires Safe(s) && Runs(s, steps)
    ensures Safe(Final(s, steps))
    decreases |steps|
  {
    if steps == [] {
    } else {
      StepSafe(s, steps[0]);
      RunSafe(Next(s, steps[0]), steps[1..]);
    }
  }

  /** In every reachable state, any two readable copies carry the same clock, and no copy is behind them. */
  lemma ValidCopiesAgree(machines: nat, value: Value, steps: seq<Step>, a: nat, b: nat)
    requires machines >= 2 && Runs(Initial(machines, value), steps)
    requires var s := Final(Initial(machines, value), steps); a < |s.lines| && b < |s.lines| && s.lines[a].state.Valid?
    ensures var s := Final(Initial(machines, value), steps);
            && AtMost(StampOf(s, a), StampOf(s, b))
            && (s.lines[b].state.Valid? ==>
                  s.lines[a].version == s.lines[b].version && s.lines[a].cid == s.lines[b].cid)
  {
    InitialSafe(machines, value);
    RunSafe(Initial(machines, value), steps);
    var s := Final(Initial(machines, value), steps);
    assert LineOk(s, a) && LineOk(s, b);
  }

  /** What a write awaits: exactly the other machines whose ack it has not counted. */
  ghost predicate AwaitsOthers(s: System, m: nat)
    requires m < |s.lines|
  {
    && |s.acked| == |s.lines|
    && s.lines[m].pendingAcks == |Machines(|s.lines|) - {m} - s.acked[m]| >= 1
    && forall x :: x in s.acked[m] ==> x < |s.lines| && x != m && AtMost(StampOf(s, m), StampOf(s, x))
  }

  lemma SafeAwaits(s: System, m: nat)
    requires Safe(s) && m < |s.lines| && Writing(s.lines[m])
    ensures AwaitsOthers(s, m)
  {
    assert WriterOk(s, m);
    assert forall x :: x in s.acked[m] ==> CaughtUp(s, m, x);
    var others := Machines(|s.lines|) - {m};
    assert others == (others - s.acked[m]) + s.acked[m];
  }

  /** In every reachable state a write's count is exact, and every machine counted has caught up with it. */
  lemma PendingAcksExact(machines: nat, value: Value, steps: seq<Step>, m: nat)
    requires machines >= 2 && Runs(Initial(machines, value), steps)
    requires var s := Final(Initial(machines, value), steps); m < |s.lines| && Writing(s.lines[m])
    ensures AwaitsOthers(Final(Initial(machines, value), steps), m)
  {
    InitialSafe(machines, value);
    RunSafe(Initial(machines, value), steps);
    SafeAwaits(Final(Initial(machines, value), steps), m);
  }

  // ----- The key behaves as one atomic register -----

  /** An atomic register at `r`: writes take effect when they complete, and reads return the register. */
  ghost predicate Atomic(r: Timestamp, begun: set<Timestamp>, events: seq<Event>)
    decreases |events|
  {
    if events == [] then true
    else match events[0]
      case Read(m, ts) => ts == r && Atomic(r, begun, events[1..])
      case Begin(m, ts) => ts.cid == m && ts !in begun && Less(r, ts) && Atomic(r, begun + {ts}, events[1..])
      case Complete(m, ts) => ts.cid == m && ts in begun && Less(r, ts) && Atomic(ts, begun, events[1..])
      case Silent => Atomic(r, begun, events[1..])
  }

  /** One step against the register: `t` is the state the step leads to. */
  ghost predicate Explained(s: System, e: Event, t: System) {
    match e
    case Read(m, ts) => ts == s.committed == t.committed && t.issued.Keys == s.issued.Keys
    case Begin(m, ts) =>
      && ts.cid == m && ts !in s.issued && Less(s.committed, ts)
      && t.committed == s.committed && t.issued.Keys == s.issued.Keys + {ts}
    case Complete(m, ts) =>
      && ts.cid == m && ts in s.issued && Less(s.committed, ts)
      && t.committed == ts && t.issued.Keys == s.issued.Keys
    case Silent => t.committed == s.committed && t.issued.Keys == s.issued.Keys
  }

  lemma PutExplained(s: System, m: nat, session: nat, value: Value)
    requires Safe(s) && m < |s.lines|
    ensures Explained(s, Observe(s, Put(m, session, value)), AfterPut(s, m, session, value))
  {
    assert LineOk(s, m);
    NotYetIssued(s, m, Timestamp(s.lines[m].version + 2, m));
  }

  lemma AckExplained(s: System, ack: Ack, slot: Value)
    requires Safe(s) && ack in s.acks && ack.to < |s.lines|
    ensures Explained(s, Observe(s, DeliverAck(ack, slot)), AfterAck(s, ack, slot))
  {
    assert LineOk(s, ack.to);
    assert AckOk(s, ack);
  }

  lemma StepExplained(s: System, step: Step)
    requires Safe(s) && Enabled(s, step)
    ensures Explained(s, Observe(s, step), Next(s, step))
  {
    match step
    case Get(m) => assert LineOk(s, m);
    case Put(m, session, value) => PutExplained(s, m, session, value);
    case DeliverAck(ack, slot) => AckExplained(s, ack, slot);
    case _ =>
  }

  lemma {:induction false} RunAtomic(s: System, steps: seq<Step>)
    requires Safe(s) && Runs(s, steps)
    ensures Atomic(s.committed, s.issued.Keys, Events(s, steps))
    decreases |steps|
  {
    if steps == [] {
    } else {
      var t := Next(s, steps[0]);
      StepSafe(s, steps[0]);
      StepExplained(s, steps[0]);
      RunAtomic(t, steps[1..]);
      assert Events(s, steps)[1..] == Events(t, steps[1..]);
    }
  }

  /** The clock of the last write to complete. */
  ghost function LastComplete(r: Timestamp, events: seq<Event>): Timestamp
    decreases |events|
  {
    if events == [] then r
    else LastComplete(if events[0].Complete? then events[0].ts else r, events[1..])
  }

  /** What an atomic register promises about the event at position `j`. */
  ghost predicate RealTime(r: Timestamp, begun: set<Timestamp>, events: seq<Event>, j: nat)
    requires j < |events|
  {
    var now := LastComplete(r, events[..j]);
    match events[j]
    case Read(m, ts) => ts == now
    case Begin(m, ts) => Less(now, ts)
    case Complete(m, ts) =>
      && ts.cid == m && Less(now, ts)
      && (ts in begun || exists i :: 0 <= i < j && events[i] == Begin(m, ts))
    case Silent => true
  }

  lemma {:induction false} AtomicRealTime(r: Timestamp, begun: set<Timestamp>, events: seq<Event>, j: nat)
    requires Atomic(r, begun, events) && j < |events|
    ensures RealTime(r, begun, events, j)
    decreases |events|
  {
    if j == 0 {
    } else {
      var e := events[0];
      var r' := if e.Complete? then e.ts else r;
      var begun' := if e.Begin? then begun + {e.ts} else begun;
      AtomicRealTime(r', begun', events[1..], j - 1);
      assert events[..j][1..] == events[1..][..j - 1];
      assert LastComplete(r, events[..j]) == LastComplete(r', events[1..][..j - 1]);
      if events[j].Complete? && events[j].ts !in begun {
        if events[j].ts in begun' {
          assert events[0] == Begin(events[j].m, events[j].ts);
        } else {
          var i :| 0 <= i < j - 1 && events[1..][i] == Begin(events[j].m, events[j].ts);
          assert events[i + 1] == Begin(events[j].m, events[j].ts);
        }
      }
    }
  }

  /**
   Linearizability. In every run, at every position: a successful GET on any machine returns the clock of
   the latest write completed so far; a write completes after it began and with a clock above every write
   completed before; and a write begun after another completed is ordered after it.
   */
  lemma Linearizable(machines: nat, value: Value, steps: seq<Step>, j: nat)
    requires machines >= 2 && Runs(Initial(machines, value), steps)
    requires j < |Events(Initial(machines, value), steps)|
    ensures RealTime(ZERO, {ZERO}, Events(Initial(machines, value), steps), j)
  {
    var s := Initial(machines, value);
    InitialSafe(machines, value);
    RunAtomic(s, steps);
    assert s.issued.Keys == {ZERO};
    AtomicRealTime(ZERO, {ZERO}, Events(s, steps), j);
  }

  lemma {:induction false} LastCompleteGrows(r: Timestamp, begun: set<Timestamp>, events: seq<Event>, i: nat, j: nat)
    requires Atomic(r, begun, events) && i <= j <= |events|
    ensures AtMost(LastComplete(r, events[..i]), LastComplete(r, events[..j]))
    decreases |events|
  {
    if j == 0 {
    } else {
      var e := events[0];
      var r' := if e.Complete? then e.ts else r;
      var begun' := if e.Begin? then begun + {e.ts} else begun;
      assert events[..j][1..] == events[1..][..j - 1];
      if i == 0 {
        LastCompleteGrows(r', begun', events[1..], 0, j - 1);
      } else {
        assert events[..i][1..] == events[1..][..i - 1];
        LastCompleteGrows(r', begun', events[1..], i - 1, j - 1);
      }
    }
  }

  lemma {:induction false} LastCompleteAppend(r: Timestamp, events: seq<Event>, e: Event)
    ensures LastComplete(r, events + [e]) == if e.Complete? then e.ts else LastComplete(r, events)
    decreases |events|
  {
    if events == [] {
      assert events + [e] == [e];
    } else {
      assert (events + [e])[1..] == events[1..] + [e];
      LastCompleteAppend(if events[0].Complete? then events[0].ts else r, events[1..], e);
    }
  }

  /** What the register was at event `i`, it was or had passed at every later read. */
  lemma LaterReads(events: seq<Event>, i: nat, j: nat)
    requires i < j < |events| && (events[i].Read? || events[i].Complete?) && events[j].Read?
    requires Atomic(ZERO, {ZERO}, events) && RealTime(ZERO, {ZERO}, events, i) && RealTime(ZERO, {ZERO}, events, j)
    ensures AtMost(events[i].ts, events[j].ts)
  {
    LastCompleteGrows(ZERO, {ZERO}, events, i + 1, j);
    assert events[..i + 1] == events[..i] + [events[i]];
    LastCompleteAppend(ZERO, events[..i], events[i]);
  }

  /** Reads never go backwards, anywhere: a later GET on any machine sees a clock at least as large. */
  lemma ReadsNeverGoBack(machines: nat, value: Value, steps: seq<Step>, i: nat, j: nat)
    requires machines >= 2 && Runs(Initial(machines, value), steps)
    requires i < j < |Events(Initial(machines, value), steps)|
    requires var es := Events(Initial(machines, value), steps); (es[i].Read? || es[i].Complete?) && es[j].Read?
    ensures var es := Events(Initial(machines, value), steps); AtMost(es[i].ts, es[j].ts)
  {
    var s := Initial(machines, value);
    InitialSafe(machines, value);
    RunAtomic(s, steps);
    assert s.issued.Keys == {ZERO};
    Linearizable(machines, value, steps, i);
    Linearizable(machines, value, steps, j);
    LaterReads(Events(s, steps), i, j);
  }
}
