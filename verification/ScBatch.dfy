/** A batch served by one machine's cache is a run of the whole system for every key, and its answers are the events. */
module ScBatch {
  import opened Clock
  import opened Sc
  import Sys = ScSystem

  /** The system step that an operation on a cached key takes on its machine. */
  function StepOf(op: Op, machine: nat): seq<Sys.Step> {
    match op
    case Get(_) => [Sys.Read(machine)]
    case Put(_, value) => [Sys.Write(machine, value)]
    case Upd(_, ts, _) => [Sys.Deliver(machine, ts)]
    case Brc(_) => []
  }

  /** What an answer tells the client. */
  function Told(op: Op, resp: Response, machine: nat): seq<Sys.Event> {
    if op.Get? && resp.GetSuccess? then [Sys.Saw(machine, resp.seen.ts, resp.seen.value)]
    else if op.Put? && resp.PutSuccess? then [Sys.Wrote(machine, resp.ts, op.value)]
    else []
  }

  /** The steps of the batch on one key, and what its answers tell about it. */
  function StepsOn(key: nat, ops: seq<Op>, machine: nat): seq<Sys.Step> {
    if ops == [] then []
    else (if ops[0].key == key then StepOf(ops[0], machine) else []) + StepsOn(key, ops[1..], machine)
  }

  function ToldOn(key: nat, ops: seq<Op>, resps: seq<Response>, machine: nat): seq<Sys.Event>
    requires |ops| == |resps|
  {
    if ops == [] then []
    else (if ops[0].key == key then Told(ops[0], resps[0], machine) else [])
         + ToldOn(key, ops[1..], resps[1..], machine)
  }

  /** The updates of the batch were broadcast by other machines. */
  ghost predicate Genuine(s: Sys.System, key: nat, ops: seq<Op>, machine: nat) {
    forall i :: 0 <= i < |ops| && ops[i].Upd? && ops[i].key == key ==>
      ops[i].ts in s.issued && s.issued[ops[i].ts] == ops[i].value && ops[i].ts.cid != machine
  }

  /** An operation leaves all other keys alone, and a key that is not cached is missed. */
  lemma OthersAlone(lines: seq<Replica>, machine: nat, op: Op)
    ensures var (after, resp) := ServeOne(lines, machine, op);
            && |after| == |lines| && (resp.Miss? <==> op.key >= |lines|)
            && forall k :: 0 <= k < |lines| && k != op.key ==> after[k] == lines[k]
  {
  }

  /** The key's copy on this machine is the cache's line, and the other copies are as in `s`. */
  ghost predicate Stands(s: Sys.System, u: Sys.System, machine: nat, line: Replica) {
    machine < |s.copies| && u.copies == s.copies[machine := line]
  }

  /** One operation is the step it stands for, and its answer the step's event. */
  lemma OneStep(s: Sys.System, lines: seq<Replica>, machine: nat, op: Op)
    requires Sys.Safe(s) && op.key < |lines| && Stands(s, s, machine, lines[op.key])
    requires Genuine(s, op.key, [op], machine)
    ensures var (after, resp) := ServeOne(lines, machine, op);
            && Told(op, resp, machine) == (if op.Brc? || op.Upd? then [] else Sys.Observe(s, StepOf(op, machine)[0]))
            && (op.Brc? ==> after == lines && resp.Stalled?)
            && (!op.Brc? ==> Sys.Enabled(s, StepOf(op, machine)[0])
                             && Stands(s, Sys.Next(s, StepOf(op, machine)[0]), machine, after[op.key]))
            && (op.Put? ==> resp.PutSuccess? && resp.ts !in s.issued)
            && (op.Upd? ==> if AtMost(op.ts, lines[op.key].ts) then resp.UpdFail? && after == lines
                            else resp.UpdSuccess? && after[op.key] == Replica(op.ts, op.value))
  {
    assert Sys.CopyOk(s, machine);
    if op.Upd? { assert [op][0] == op; }
    if !op.Brc? { Sys.StepSafe(s, StepOf(op, machine)[0]); }
  }

  lemma GenuineLater(s: Sys.System, u: Sys.System, key: nat, ops: seq<Op>, machine: nat)
    requires ops != [] && Genuine(s, key, ops, machine)
    requires forall ts :: ts in s.issued ==> ts in u.issued && u.issued[ts] == s.issued[ts]
    ensures Genuine(s, key, [ops[0]], machine) && Genuine(u, key, ops[1..], machine)
  {
  }

  /** What a batch means for one key. */
  ghost predicate Explained(
    s: Sys.System, u: Sys.System, key: nat, lines: seq<Replica>, machine: nat, ops: seq<Op>)
    requires key < |lines|
  {
    var (after, resps) := Serve(lines, machine, ops);
    var steps := StepsOn(key, ops, machine);
    && Sys.Runs(s, steps) && Sys.Final(s, steps) == u && Stands(s, u, machine, after[key])
    && Sys.History(s, steps) == ToldOn(key, ops, resps, machine)
  }

  lemma RunsCons(s: Sys.System, step: Sys.Step, rest: seq<Sys.Step>)
    requires Sys.Enabled(s, step) && Sys.Runs(Sys.Next(s, step), rest)
    ensures Sys.Runs(s, [step] + rest) && Sys.Final(s, [step] + rest) == Sys.Final(Sys.Next(s, step), rest)
    ensures Sys.History(s, [step] + rest) == Sys.Observe(s, step) + Sys.History(Sys.Next(s, step), rest)
  {
    assert ([step] + rest)[1..] == rest;
  }

  /**
   For every cached key, the operations of a batch on it are a run of the system on this machine: the line ends up as
   that machine's copy, no other copy changes, and the answers are the events of the run, in order.
   */
  lemma {:induction false} BatchIsRun(s: Sys.System, key: nat, lines: seq<Replica>, machine: nat, ops: seq<Op>)
    returns (u: Sys.System)
    requires Sys.Safe(s) && key < |lines| && Stands(s, s, machine, lines[key]) && Genuine(s, key, ops, machine)
    ensures Sys.Safe(u) && Explained(s, u, key, lines, machine, ops)
    decreases |ops|
  {
    if ops == [] {
      u := s;
    } else {
      var op, rest := ops[0], StepsOn(key, ops[1..], machine);
      var (next, resp) := ServeOne(lines, machine, op);
      var later := Serve(next, machine, ops[1..]).1;
      assert ([resp] + later)[1..] == later;
      OthersAlone(lines, machine, op);
      if op.key != key || op.Brc? {
        GenuineLater(s, s, key, ops, machine);
        if op.key == key { OneStep(s, lines, machine, op); }
        u := BatchIsRun(s, key, next, machine, ops[1..]);
        assert StepsOn(key, ops, machine) == rest;
        assert ToldOn(key, ops, [resp] + later, machine) == ToldOn(key, ops[1..], later, machine);
      } else {
        var step := StepOf(op, machine)[0];
        GenuineLater(s, s, key, ops, machine);
        OneStep(s, lines, machine, op);
        Sys.StepSafe(s, step);
        var t := Sys.Next(s, step);
        GenuineLater(s, t, key, ops, machine);
        u := BatchIsRun(t, key, next, machine, ops[1..]);
        RunsCons(s, step, rest);
        assert StepsOn(key, ops, machine) == [step] + rest;
      }
    }
  }
}
