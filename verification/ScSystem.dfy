/** Runs of the sequentially consistent protocol on one key: updates may be lost, repeated and reordered. */
module ScSystem {
  import opened Clock
  import opened Sc

  /** `issued` holds every write so far, the initial value included; each was broadcast as one update. */
  datatype System = System(copies: seq<Replica>, issued: map<Timestamp, Value>)

  datatype Step =
    | Read(m: nat)
    | Write(m: nat, value: Value)
    | Deliver(m: nat, ts: Timestamp)

  /** What the clients of machine `m` see. */
  datatype Event =
    | Saw(m: nat, ts: Timestamp, value: Value)
    | Wrote(m: nat, ts: Timestamp, value: Value)

  function Initial(machines: nat, value: Value): System {
    System(seq(machines, _ => Replica(ZERO, value)), map[ZERO := value])
  }

  predicate Enabled(s: System, step: Step) {
    && step.m < |s.copies|
    && (step.Deliver? ==> step.ts in s.issued && step.ts.cid != step.m)
  }

  function Next(s: System, step: Step): System
    requires Enabled(s, step)
  {
    match step
    case Read(m) => s
    case Write(m, value) =>
      var r := OnPut(s.copies[m], m, value);
      System(s.copies[m := r], s.issued[r.ts := value])
    case Deliver(m, ts) =>
      s.(copies := s.copies[m := OnUpd(s.copies[m], Replica(ts, s.issued[ts]))])
  }

  function Observe(s: System, step: Step): seq<Event>
    requires Enabled(s, step)
  {
    match step
    case Read(m) => [Saw(m, s.copies[m].ts, s.copies[m].value)]
    case Write(m, value) => [Wrote(m, OnPut(s.copies[m], m, value).ts, value)]
    case Deliver(_, _) => []
  }

  ghost predicate Runs(s: System, steps: seq<Step>)
    decreases |steps|
  {
    steps == [] || (Enabled(s, steps[0]) && Runs(Next(s, steps[0]), steps[1..]))
  }

  ghost function Final(s: System, steps: seq<Step>): System
    requires Runs(s, steps)
    decreases |steps|
  {
    if steps == [] then s else Final(Next(s, steps[0]), steps[1..])
  }

  ghost function History(s: System, steps: seq<Step>): seq<Event>
    requires Runs(s, steps)
    decreases |steps|
  {
    if steps == [] then [] else Observe(s, steps[0]) + History(Next(s, steps[0]), steps[1..])
  }

  // ----- Invariants -----

  ghost predicate CopyOk(s: System, m: nat)
    requires m < |s.copies|
  {
    s.copies[m].ts in s.issued && s.issued[s.copies[m].ts] == s.copies[m].value
  }

  ghost predicate ClockOk(s: System, ts: Timestamp) {
    ts.version % 2 == 0 && ts.cid < |s.copies| && AtMost(ts, s.copies[ts.cid].ts)
  }

  /** Every copy holds the value its clock was issued with, and no machine is behind what it issued. */
  ghost predicate Safe(s: System) {
    && ZERO in s.issued
    && (forall m: nat :: m < |s.copies| ==> CopyOk(s, m))
    && (forall ts :: ts in s.issued ==> ClockOk(s, ts))
  }

  lemma StepSafe(s: System, step: Step)
    requires Safe(s) && Enabled(s, step)
    ensures Safe(Next(s, step))
    ensures s.issued.Keys <= Next(s, step).issued.Keys
    ensures forall ts :: ts in s.issued ==> Next(s, step).issued[ts] == s.issued[ts]
    ensures step.Write? ==> OnPut(s.copies[step.m], step.m, step.value).ts !in s.issued
    ensures forall m: nat :: m < |s.copies| ==> AtMost(s.copies[m].ts, Next(s, step).copies[m].ts)
  {
    var t := Next(s, step);
    assert CopyOk(s, step.m) && ClockOk(s, s.copies[step.m].ts);
    if step.Write? {
      var ts := OnPut(s.copies[step.m], step.m, step.value).ts;
      assert ts !in s.issued by { assert ts in s.issued ==> ClockOk(s, ts); }
    }
    forall m: nat | m < |t.copies| ensures CopyOk(t, m) { assert CopyOk(s, m); }
    forall ts | ts in t.issued ensures ClockOk(t, ts) { assert ts in s.issued ==> ClockOk(s, ts); }
  }

  lemma InitialSafe(machines: nat, value: Value)
    requires machines >= 1
    ensures Safe(Initial(machines, value))
  {
  }

  // ----- Convergence -----

  lemma {:induction false} RunSafe(s: System, steps: seq<Step>)
    requires Safe(s) && Runs(s, steps)
    ensures Safe(Final(s, steps)) && |Final(s, steps).copies| == |s.copies|
    ensures forall m: nat :: m < |s.copies| ==> AtMost(s.copies[m].ts, Final(s, steps).copies[m].ts)
    decreases |steps|
  {
    if steps == [] {
    } else {
      StepSafe(s, steps[0]);
      RunSafe(Next(s, steps[0]), steps[1..]);
    }
  }

  /** A machine that was ever given an update is never behind it afterwards. */
  lemma {:induction false} DeliveredReaches(s: System, steps: seq<Step>, i: nat)
    requires Safe(s) && Runs(s, steps) && i < |steps| && steps[i].Deliver?
    ensures steps[i].m < |Final(s, steps).copies| && AtMost(steps[i].ts, Final(s, steps).copies[steps[i].m].ts)
    decreases |steps|
  {
    StepSafe(s, steps[0]);
    RunSafe(Next(s, steps[0]), steps[1..]);
    if i == 0 {
    } else {
      DeliveredReaches(Next(s, steps[0]), steps[1..], i - 1);
    }
  }

  ghost predicate GivenToAll(steps: seq<Step>, machines: nat, ts: Timestamp) {
    forall m: nat :: m < machines && m != ts.cid ==> Deliver(m, ts) in steps
  }

  /**
   However updates are delayed, repeated and reordered, once every machine was given every update all
   copies are equal: the same largest write, with the value it was written with.
   */
  lemma CopiesConverge(machines: nat, value: Value, steps: seq<Step>)
    requires machines >= 1 && Runs(Initial(machines, value), steps)
    requires var s := Final(Initial(machines, value), steps);
             forall ts :: ts in s.issued && ts != ZERO ==> GivenToAll(steps, machines, ts)
    ensures var s := Final(Initial(machines, value), steps);
            && |s.copies| == machines
            && s.copies[0].ts in s.issued && s.issued[s.copies[0].ts] == s.copies[0].value
            && (forall ts :: ts in s.issued ==> AtMost(ts, s.copies[0].ts))
            && (forall m: nat :: m < machines ==> s.copies[m] == s.copies[0])
  {
    var s0 := Initial(machines, value);
    var s := Final(s0, steps);
    InitialSafe(machines, value);
    RunSafe(s0, steps);
    forall m: nat, ts | m < machines && ts in s.issued ensures AtMost(ts, s.copies[m].ts) {
      assert ClockOk(s, ts) && CopyOk(s, m);
      if m != ts.cid && ts != ZERO {
        assert Deliver(m, ts) in steps;
        var i :| 0 <= i < |steps| && steps[i] == Deliver(m, ts);
        DeliveredReaches(s0, steps, i);
      }
    }
    assert CopyOk(s, 0);
    forall m: nat | m < machines ensures s.copies[m] == s.copies[0] {
      assert CopyOk(s, m) && CopyOk(s, 0);
      assert AtMost(s.copies[m].ts, s.copies[0].ts) && AtMost(s.copies[0].ts, s.copies[m].ts);
    }
  }
}
