/**
 The linearizable protocol one memory access at a time. Every machine has a line in memory that its threads lock and
 change access by access; a thread that has the lock carries out one operation of the protocol, which takes effect
 for the others when it decides what to do.
 */
module LinCluster {
  import opened Clock
  import opened Lin
  import opened Seqlock
  import opened SeqlockSamples
  import opened SeqlockReader
  import L = LinSystem
  import LinSafety
  import LinRegister
  import LinRivals
  import Paths

  datatype Cluster = Cluster(system: L.System, memories: seq<Memory>)

  /** An access that is no decision, a thread's decision on a locked line, or a message lost. */
  datatype Step =
    | Access(m: nat, access: Seqlock.Step)
    | Operate(m: nat, t: nat, op: L.Step, section: Section)
    | Lose(op: L.Step)

  function Initial(machines: nat, initial: Value, threads: nat, value: seq<Byte>): Cluster {
    Cluster(L.Initial(machines, initial),
            seq(machines, m requires 0 <= m => Seqlock.Initial(Linearizable(machines), m, threads, value)))
  }

  predicate IsLoss(op: L.Step) {
    op.LoseInv? || op.LoseAck? || op.LoseUpd?
  }

  /** The machine whose line the operation is about. */
  function MachineOf(op: L.Step): nat
    requires !IsLoss(op)
  {
    match op
    case Get(m) => m
    case Put(m, _, _) => m
    case DeliverInv(inv) => inv.to
    case DeliverAck(ack, _) => ack.to
    case DeliverUpd(upd) => upd.to
  }

  function Act(l: Line, m: nat, machines: nat, op: L.Step): (Line, Response)
    requires machines >= 1 && !IsLoss(op)
  {
    match op
    case Get(_) => OnGet(l)
    case Put(_, session, value) => OnPut(l, session, value, machines)
    case DeliverInv(inv) => OnInv(l, m, inv.ts)
    case DeliverAck(ack, _) => OnAck(l, m, ack.version)
    case DeliverUpd(upd) => OnUpd(l, upd.ts, upd.value)
  }

  function KindOf(r: Response): Kind {
    match r
    case PutSuccess => LinPut
    case InvSuccess => LinInv
    case UpdSuccess => LinUpdate
    case LastAckSuccess => LastAck
    case _ => Restore
  }

  function ClockOf(l: Line): Timestamp {
    Timestamp(l.version, l.cid)
  }

  /** The critical section that carries out an operation. */
  function SectionFor(l: Line, m: nat, machines: nat, op: L.Step): Section
    requires machines >= 1 && !IsLoss(op)
  {
    var (after, r) := Act(l, m, machines, op);
    Section(KindOf(r), ClockOf(after), after.state)
  }

  predicate Shaped(s: Cluster) {
    |s.memories| == |s.system.lines| == |s.system.acked| >= 1
  }

  predicate Enabled(s: Cluster, step: Step) {
    && Shaped(s)
    && match step
       case Access(m, access) => m < |s.memories| && !access.Decide? && Seqlock.Enabled(s.memories[m], access)
       case Operate(m, t, op, section) =>
         && m < |s.memories| && !IsLoss(op) && MachineOf(op) == m && L.Enabled(s.system, op)
         && section == SectionFor(s.system.lines[m], m, |s.system.lines|, op)
         && Seqlock.Enabled(s.memories[m], Decide(t, section))
       case Lose(op) => IsLoss(op) && L.Enabled(s.system, op)
  }

  function Next(s: Cluster, step: Step): Cluster
    requires Enabled(s, step)
  {
    match step
    case Access(m, access) => s.(memories := s.memories[m := Seqlock.Next(s.memories[m], access)])
    case Operate(m, t, op, section) =>
      Cluster(L.Next(s.system, op), s.memories[m := Seqlock.Next(s.memories[m], Decide(t, section))])
    case Lose(op) => s.(system := L.Next(s.system, op))
  }

  ghost predicate StepsTo(s: Cluster, step: Step, u: Cluster) {
    Enabled(s, step) && Next(s, step) == u
  }

  /** A run of the cluster. */
  ghost predicate Path(s: Cluster, steps: seq<Step>, u: Cluster) {
    Paths.Leads(StepsTo, s, steps, u)
  }

  // ----- Memories and protocol stay in step -----

  /** The line in memory is locked correctly and stands for the protocol's copy. */
  ghost predicate MemoryOk(s: Memory, l: Line, m: nat, machines: nat) {
    && Exclusive(s) && s.protocol == Linearizable(machines) && s.machine == m
    && PendingMoves(s) && Effective(s, ClockOf(l), l.state)
  }

  ghost predicate Linked(s: Cluster) {
    && Shaped(s) && LinSafety.Safe(s.system) && LinRivals.Alone(s.system)
    && forall m: nat :: m < |s.memories| ==> MemoryOk(s.memories[m], s.system.lines[m], m, |s.memories|)
  }

  lemma InitialLinked(machines: nat, initial: Value, threads: nat, value: seq<Byte>)
    requires machines >= 2
    ensures Linked(Initial(machines, initial, threads, value))
  {
    LinSafety.InitialSafe(machines, initial);
  }

  /** An operation changes its own machine's copy only. */
  lemma OperationLine(s: L.System, op: L.Step)
    requires |s.acked| == |s.lines| >= 1 && L.Enabled(s, op) && !IsLoss(op)
    ensures var m := MachineOf(op); L.Next(s, op).lines == s.lines[m := Act(s.lines[m], m, |s.lines|, op).0]
  {
  }

  /** Clocks on the wire are even and carry a machine's id. */
  lemma WireClocks(s: L.System, op: L.Step)
    requires LinSafety.Safe(s) && L.Enabled(s, op)
    ensures op.DeliverInv? ==> op.inv.ts.version % 2 == 0 && op.inv.ts.cid < |s.lines|
    ensures op.DeliverUpd? ==> op.upd.ts.version % 2 == 0
  {
    if op.DeliverInv? { assert LinSafety.InvOk(s, op.inv) && LinSafety.ClockOk(s, op.inv.ts); }
    if op.DeliverUpd? { assert LinSafety.UpdOk(s, op.upd) && LinSafety.ClockOk(s, op.upd.ts); }
  }

  lemma SectionLegal(l: Line, m: nat, machines: nat, op: L.Step)
    requires machines >= 1 && !IsLoss(op) && l.version % 2 == 0
    requires op.DeliverInv? ==> op.inv.ts.version % 2 == 0 && op.inv.ts.cid < machines
    requires op.DeliverUpd? ==> op.upd.ts.version % 2 == 0
    ensures Legal(Linearizable(machines), m, ClockOf(l), l.state, SectionFor(l, m, machines, op))
  {
  }

  /** A thread that has bumped the version looks at the line as the protocol knows it. */
  lemma BumpedSees(s: Memory, l: Line, m: nat, machines: nat, t: nat)
    requires MemoryOk(s, l, m, machines) && t < |s.stages| && s.stages[t].Bumped?
    ensures s.version == l.version + 1 && s.cid == l.cid && s.state == l.state && l.version % 2 == 0
    ensures s.base == ClockOf(l) && s.was == l.state
  {
    assert OnlyOne(s, t) && SeenAt(s, s.stages[t]);
  }

  /** The lock never stands in the way of an operation: whoever holds it can carry out any operation there is. */
  lemma NeverBlocked(s: Cluster, m: nat, t: nat, op: L.Step)
    requires Linked(s) && m < |s.memories| && t < |s.memories[m].stages| && s.memories[m].stages[t].Bumped?
    requires L.Enabled(s.system, op) && !IsLoss(op) && MachineOf(op) == m
    ensures Enabled(s, Operate(m, t, op, SectionFor(s.system.lines[m], m, |s.system.lines|, op)))
  {
    var mem, l := s.memories[m], s.system.lines[m];
    BumpedSees(mem, l, m, |s.memories|, t);
    WireClocks(s.system, op);
    SectionLegal(l, m, |s.memories|, op);
    assert Seqlock.Enabled(mem, Decide(t, SectionFor(l, m, |s.memories|, op)));
  }

  lemma InvSection(l: Line, m: nat, machines: nat, op: L.Step)
    requires machines >= 1 && !IsLoss(op) && SectionFor(l, m, machines, op).kind.LinInv?
    ensures op.DeliverInv? && OnInv(l, m, op.inv.ts).1.InvSuccess?
    ensures SectionFor(l, m, machines, op).target == op.inv.ts
  {
  }

  /** In the protocol, a section that invalidates a readable copy moves its version by two at least. */
  lemma SectionMoves(s: L.System, m: nat, op: L.Step)
    requires LinSafety.Safe(s) && LinRivals.Alone(s) && L.Enabled(s, op) && !IsLoss(op) && MachineOf(op) == m
    requires s.lines[m].state.Valid? && SectionFor(s.lines[m], m, |s.lines|, op).kind.LinInv?
    ensures var target := SectionFor(s.lines[m], m, |s.lines|, op).target;
            target.version > s.lines[m].version + 1
  {
    assert LinSafety.LineOk(s, m) && LinSafety.ClockOk(s, L.StampOf(s, m));
    InvSection(s.lines[m], m, |s.lines|, op);
    WireClocks(s, op);
    LinRivals.SafeReadableNeedsLarger(s, op.inv);
  }

  lemma BumpedMoves(s: Memory, l: Line, t: nat, section: Section)
    requires s.version == l.version + 1 && s.state == l.state
    requires section.kind.LinInv? && l.state.Valid? ==> section.target.version > l.version + 1
    ensures MovesVersion(s, Decide(t, section))
  {
  }

  /** So it does in memory. */
  lemma OperateMoves(s: Cluster, m: nat, t: nat, op: L.Step, section: Section)
    requires Linked(s) && Enabled(s, Operate(m, t, op, section))
    ensures MovesVersion(s.memories[m], Decide(t, section))
  {
    BumpedSees(s.memories[m], s.system.lines[m], m, |s.memories|, t);
    if section.kind.LinInv? && s.system.lines[m].state.Valid? { SectionMoves(s.system, m, op); }
    BumpedMoves(s.memories[m], s.system.lines[m], t, section);
  }

  lemma DecideMemory(s: Memory, l: Line, m: nat, machines: nat, t: nat, op: L.Step)
    requires MemoryOk(s, l, m, machines) && machines >= 1 && !IsLoss(op)
    requires var decision := Decide(t, SectionFor(l, m, machines, op));
             Seqlock.Enabled(s, decision) && MovesVersion(s, decision)
    ensures var decision := Decide(t, SectionFor(l, m, machines, op));
            MemoryOk(Seqlock.Next(s, decision), Act(l, m, machines, op).0, m, machines)
  {
    var decision := Decide(t, SectionFor(l, m, machines, op));
    StepExclusive(s, decision);
    StepPendingMoves(s, decision);
    DecideEffective(s, t, decision.section);
  }

  lemma DecideEffective(s: Memory, t: nat, section: Section)
    requires Exclusive(s) && Seqlock.Enabled(s, Decide(t, section))
    ensures Effective(Seqlock.Next(s, Decide(t, section)), section.target, section.state)
  {
    assert OnlyOne(s, t);
    assert InSection(Seqlock.Next(s, Decide(t, section)).stages[t]);
  }

  lemma AccessMemory(s: Memory, l: Line, m: nat, machines: nat, access: Seqlock.Step)
    requires MemoryOk(s, l, m, machines) && Seqlock.Enabled(s, access) && !access.Decide?
    ensures MemoryOk(Seqlock.Next(s, access), l, m, machines)
  {
    StepExclusive(s, access);
    StepPendingMoves(s, access);
    AccessEffective(s, access, ClockOf(l), l.state);
  }

  lemma OperateLinked(s: Cluster, m: nat, t: nat, op: L.Step, section: Section)
    requires Linked(s) && Enabled(s, Operate(m, t, op, section))
    ensures Linked(Next(s, Operate(m, t, op, section)))
  {
    var u := Next(s, Operate(m, t, op, section));
    LinSafety.StepSafe(s.system, op);
    LinRivals.StepAlone(s.system, op);
    OperateMoves(s, m, t, op, section);
    DecideMemory(s.memories[m], s.system.lines[m], m, |s.memories|, t, op);
    OperationLine(s.system, op);
    forall x: nat | x < |u.memories| ensures MemoryOk(u.memories[x], u.system.lines[x], x, |u.memories|) {
      if x != m { assert MemoryOk(s.memories[x], s.system.lines[x], x, |s.memories|); }
    }
  }

  lemma LoseLinked(s: Cluster, op: L.Step)
    requires Linked(s) && Enabled(s, Lose(op))
    ensures Linked(Next(s, Lose(op)))
  {
    LinSafety.StepSafe(s.system, op);
    LinRivals.StepAlone(s.system, op);
    assert L.Next(s.system, op).lines == s.system.lines;
  }

  /** Every access, every operation and every loss keeps memories and protocol in step. */
  lemma StepLinked(s: Cluster, step: Step)
    requires Linked(s) && Enabled(s, step)
    ensures Linked(Next(s, step))
  {
    match step
    case Access(m, access) => AccessMemory(s.memories[m], s.system.lines[m], m, |s.memories|, access);
    case Operate(m, t, op, section) => OperateLinked(s, m, t, op, section);
    case Lose(op) => LoseLinked(s, op);
  }

  lemma PathLinked(s: Cluster, steps: seq<Step>, u: Cluster)
    requires Linked(s) && Path(s, steps, u)
    ensures Linked(u)
  {
    forall a, step, b | Linked(a) && StepsTo(a, step, b) ensures Linked(b) { StepLinked(a, step); }
    Paths.Kept(StepsTo, Linked, s, steps, u);
  }

  // ----- A run as the protocol sees it -----

  ghost predicate ProtocolStep(s: L.System, op: L.Step, u: L.System) {
    |s.acked| == |s.lines| && L.Enabled(s, op) && L.Next(s, op) == u
  }

  ghost predicate ProtocolPath(s: L.System, ops: seq<L.Step>, u: L.System) {
    Paths.Leads(ProtocolStep, s, ops, u)
  }

  function OperationsOf(step: Step): seq<L.Step> {
    if step.Access? then [] else [step.op]
  }

  /** The operations decided and the messages lost. */
  function Operations(steps: seq<Step>): seq<L.Step> {
    Paths.Flat(OperationsOf, steps)
  }

  lemma StepRefines(s: Cluster, step: Step, u: Cluster)
    requires StepsTo(s, step, u)
    ensures Shaped(u) && ProtocolPath(s.system, OperationsOf(step), u.system)
  {
    if !step.Access? { Paths.LeadsOne(ProtocolStep, s.system, step.op, u.system); }
  }

  /** Every run is a run of the protocol, each operation one atomic step of it. */
  lemma PathRefines(s: Cluster, steps: seq<Step>, u: Cluster)
    requires Shaped(s) && Path(s, steps, u)
    ensures Shaped(u) && ProtocolPath(s.system, Operations(steps), u.system)
  {
    var system := (c: Cluster) => c.system;
    forall a, step, b | Shaped(a) && StepsTo(a, step, b)
      ensures Shaped(b) && ProtocolPath(system(a), OperationsOf(step), system(b))
    {
      StepRefines(a, step, b);
    }
    Paths.Refined(StepsTo, ProtocolStep, Shaped, system, OperationsOf, s, steps, u);
  }

  // ----- A run as one machine's memory sees it -----

  ghost predicate MemoryStep(s: Memory, step: Seqlock.Step, u: Memory) {
    Seqlock.Enabled(s, step) && MovesVersion(s, step) && Seqlock.Next(s, step) == u
  }

  /** Machine `m`'s memory, where there is such a machine. */
  function MemoryAt(s: Cluster, m: nat): Memory {
    if m < |s.memories| then s.memories[m] else Seqlock.Initial(Sequential, m, 0, [])
  }

  function AccessesOf(step: Step, m: nat): seq<Seqlock.Step> {
    if step.Lose? || step.m != m then []
    else if step.Access? then [step.access]
    else [Decide(step.t, step.section)]
  }

  function Accesses(steps: seq<Step>, m: nat): seq<Seqlock.Step> {
    Paths.Flat(step => AccessesOf(step, m), steps)
  }

  lemma StepProjects(s: Cluster, step: Step, u: Cluster, m: nat)
    requires Linked(s) && m < |s.memories| && StepsTo(s, step, u)
    ensures |u.memories| == |s.memories|
    ensures Paths.Leads(MemoryStep, MemoryAt(s, m), AccessesOf(step, m), MemoryAt(u, m))
  {
    if AccessesOf(step, m) != [] {
      if step.Operate? { OperateMoves(s, m, step.t, step.op, step.section); }
      Paths.LeadsOne(MemoryStep, s.memories[m], AccessesOf(step, m)[0], u.memories[m]);
    }
  }

  lemma PathProjects(s: Cluster, steps: seq<Step>, u: Cluster, m: nat)
    requires Linked(s) && m < |s.memories| && Path(s, steps, u)
    ensures Linked(u) && |u.memories| == |s.memories|
    ensures Paths.Leads(MemoryStep, MemoryAt(s, m), Accesses(steps, m), MemoryAt(u, m))
  {
    var holds := (c: Cluster) => Linked(c) && |c.memories| == |s.memories|;
    var memory, mine := (c: Cluster) => MemoryAt(c, m), (step: Step) => AccessesOf(step, m);
    forall a, step, b | holds(a) && StepsTo(a, step, b)
      ensures holds(b) && Paths.Leads(MemoryStep, memory(a), mine(step), memory(b))
    {
      StepLinked(a, step);
      StepProjects(a, step, b, m);
    }
    Paths.Refined(StepsTo, MemoryStep, holds, memory, mine, s, steps, u);
  }

  lemma {:induction false} MemoryRuns(s: Memory, steps: seq<Seqlock.Step>, u: Memory)
    requires Paths.Leads(MemoryStep, s, steps, u)
    ensures Seqlock.Runs(s, steps) && Seqlock.Final(s, steps) == u && Unrivalled(s, steps)
    decreases |steps|
  {
    if steps == [] {
    } else {
      var t :| MemoryStep(s, steps[0], t) && Paths.Leads(MemoryStep, t, steps[1..], u);
      MemoryRuns(t, steps[1..], u);
    }
  }

  predicate StoresByte(step: Step, m: nat) {
    step.Access? && step.m == m && step.access.StoreByte?
  }

  /** No byte of machine `m`'s value is stored. */
  predicate NoStoreAt(steps: seq<Step>, m: nat) {
    forall i :: 0 <= i < |steps| ==> !StoresByte(steps[i], m)
  }

  lemma {:induction false} NoStoreProjects(steps: seq<Step>, m: nat)
    requires NoStore(Accesses(steps, m))
    ensures NoStoreAt(steps, m)
    decreases |steps|
  {
    if steps == [] {
    } else {
      var now, later := AccessesOf(steps[0], m), Accesses(steps[1..], m);
      assert Accesses(steps, m) == now + later;
      forall i | 0 <= i < |later| ensures !later[i].StoreByte? { assert later[i] == (now + later)[|now| + i]; }
      NoStoreProjects(steps[1..], m);
      assert now != [] ==> (now + later)[0] == now[0];
      forall i | 0 <= i < |steps| ensures !StoresByte(steps[i], m) { assert i > 0 ==> steps[i] == steps[1..][i - 1]; }
    }
  }

  // ----- The lock-free GET -----

  /** It samples an even version at `s`, loads VALID at `seen`, and finds the same version again at `end`. */
  predicate GetSucceeds(s: Cluster, seen: Cluster, end: Cluster, m: nat) {
    && MemoryAt(s, m).version % 2 == 0 && MemoryAt(seen, m).state.Valid?
    && MemoryAt(end, m).version == MemoryAt(s, m).version
  }

  /** What the accesses of one memory mean for it. */
  lemma MemoryRead(
    s: Memory, first: seq<Seqlock.Step>, seen: Memory, second: seq<Seqlock.Step>, end: Memory,
    clock: Timestamp, state: State)
    requires Exclusive(s) && s.protocol.Linearizable? && PendingMoves(s) && s.version % 2 == 0
    requires Paths.Leads(MemoryStep, s, first, seen) && Paths.Leads(MemoryStep, seen, second, end)
    requires seen.state.Valid? && Effective(seen, clock, state) && end.version == s.version
    ensures NoStore(second) && end.value == seen.value && state.Valid? && clock.version == s.version
  {
    MemoryRuns(s, first, seen);
    MemoryRuns(seen, second, end);
    ValidReadSeesOneValue(s, first, second);
    EvenIsBase(s);
    RunExclusive(s, first);
    RunPendingMoves(s, first);
    ReadPoint(seen, second, s.version, clock, state);
  }

  lemma ReadsCommitted(s: L.System, m: nat)
    requires LinSafety.Safe(s) && m < |s.lines| && s.lines[m].state.Valid?
    ensures ProtocolStep(s, L.Get(m), s) && L.Observe(s, L.Get(m)) == L.Read(m, s.committed)
    ensures s.committed.version == s.lines[m].version
  {
    assert LinSafety.LineOk(s, m);
    assert s.lines[m := s.lines[m]] == s.lines;
  }

  /**
   No byte is stored after the GET loaded the state, and at that moment a GET of the atomic protocol reads the last
   completed write, whose version is the one sampled.
   */
  lemma GetReads(s: Cluster, first: seq<Step>, seen: Cluster, second: seq<Step>, end: Cluster, m: nat)
    requires Linked(s) && Path(s, first, seen) && Path(seen, second, end)
    requires m < |s.memories| && GetSucceeds(s, seen, end, m)
    ensures NoStoreAt(second, m) && MemoryAt(end, m).value == MemoryAt(seen, m).value
    ensures ProtocolStep(seen.system, L.Get(m), seen.system)
    ensures L.Observe(seen.system, L.Get(m)) == L.Read(m, seen.system.committed)
    ensures seen.system.committed.version == MemoryAt(s, m).version
  {
    PathProjects(s, first, seen, m);
    PathProjects(seen, second, end, m);
    var line := seen.system.lines[m];
    assert MemoryOk(seen.memories[m], line, m, |seen.memories|);
    MemoryRead(MemoryAt(s, m), Accesses(first, m), MemoryAt(seen, m), Accesses(second, m), MemoryAt(end, m),
               ClockOf(line), line.state);
    NoStoreProjects(second, m);
    ReadsCommitted(seen.system, m);
  }

  lemma {:induction false} ProtocolRuns(s: L.System, ops: seq<L.Step>, u: L.System)
    requires ProtocolPath(s, ops, u) && |s.acked| == |s.lines|
    ensures L.Runs(s, ops) && L.Final(s, ops) == u && |L.Events(s, ops)| == |ops|
    decreases |ops|
  {
    if ops == [] {
    } else {
      var t :| ProtocolStep(s, ops[0], t) && ProtocolPath(t, ops[1..], u);
      ProtocolRuns(t, ops[1..], u);
    }
  }

  /** The event of the operation that follows the operations `a`. */
  lemma {:induction false} EventAfter(s: L.System, a: seq<L.Step>, t: L.System, op: L.Step, b: seq<L.Step>)
    requires ProtocolPath(s, a, t) && L.Runs(s, a + [op] + b)
    requires |L.Events(s, a + [op] + b)| == |a + [op] + b|
    ensures L.Enabled(t, op) && L.Events(s, a + [op] + b)[|a|] == L.Observe(t, op)
    decreases |a|
  {
    var all := a + [op] + b;
    if a == [] {
      assert all[0] == op;
    } else {
      var v :| ProtocolStep(s, a[0], v) && ProtocolPath(v, a[1..], t);
      assert all[0] == a[0] && all[1..] == a[1..] + [op] + b;
      EventAfter(v, a[1..], t, op, b);
    }
  }

  /** The events of a run with this GET put into it. */
  ghost predicate ReadsWithin(s: L.System, a: seq<L.Step>, m: nat, b: seq<L.Step>, ts: Timestamp) {
    var all := a + [L.Get(m)] + b;
    L.Runs(s, all) && |L.Events(s, all)| == |all| && L.Events(s, all)[|a|] == L.Read(m, ts)
  }

  lemma InsertGet(s: L.System, a: seq<L.Step>, t: L.System, m: nat, b: seq<L.Step>, u: L.System)
    requires |s.acked| == |s.lines| && ProtocolPath(s, a, t) && ProtocolStep(t, L.Get(m), t) && ProtocolPath(t, b, u)
    requires L.Observe(t, L.Get(m)) == L.Read(m, t.committed)
    ensures ReadsWithin(s, a, m, b, t.committed)
  {
    Paths.LeadsOne(ProtocolStep, t, L.Get(m), t);
    Paths.LeadsThen(ProtocolStep, s, a, t, [L.Get(m)], t);
    Paths.LeadsThen(ProtocolStep, s, a + [L.Get(m)], t, b, u);
    ProtocolRuns(s, a + [L.Get(m)] + b, u);
    EventAfter(s, a, t, L.Get(m), b);
  }

  /**
   Linearizability down to memory accesses. In every run of the cluster from its initial state, a lock-free GET that
   succeeds sees one value from the moment it loads the state, and it is an atomic GET at that moment: with that GET
   among the run's operations the protocol still runs, the GET returns the version sampled, and that is the write
   completed last before it.
   */
  lemma LockFreeGetLinearizable(
    machines: nat, initial: Value, threads: nat, value: seq<Byte>, m: nat,
    before: seq<Step>, s: Cluster, first: seq<Step>, seen: Cluster, second: seq<Step>, end: Cluster)
    requires machines >= 2 && m < machines && Path(Initial(machines, initial, threads, value), before, s)
    requires Path(s, first, seen) && Path(seen, second, end) && GetSucceeds(s, seen, end, m)
    ensures NoStoreAt(second, m) && MemoryAt(end, m).value == MemoryAt(seen, m).value
    ensures var ops, rest := Operations(before) + Operations(first), Operations(second);
            && ReadsWithin(L.Initial(machines, initial), ops, m, rest, seen.system.committed)
            && seen.system.committed.version == MemoryAt(s, m).version
            && LinRegister.RealTime(
                 ZERO, {ZERO}, L.Events(L.Initial(machines, initial), ops + [L.Get(m)] + rest), |ops|)
  {
    var s0 := Initial(machines, initial, threads, value);
    InitialLinked(machines, initial, threads, value);
    PathProjects(s0, before, s, m);
    PathRefines(s0, before, s);
    PathRefines(s, first, seen);
    PathRefines(seen, second, end);
    GetReads(s, first, seen, second, end, m);
    var ops, rest := Operations(before) + Operations(first), Operations(second);
    Paths.LeadsThen(ProtocolStep, s0.system, Operations(before), s.system, Operations(first), seen.system);
    InsertGet(s0.system, ops, seen.system, m, rest, end.system);
    LinRegister.Linearizable(machines, initial, ops + [L.Get(m)] + rest, |ops|);
  }
}
