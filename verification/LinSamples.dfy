/**
 When two samples of the (version, cid) word that agree and are even rule out a store, in the cluster as a whole. For
 the samples that do not, a run of the whole protocol that stores a byte unseen.
 */
module LinSamples {
  import opened Clock
  import opened Lin
  import opened Seqlock
  import opened SeqlockSamples
  import opened SeqlockReader
  import opened LinCluster
  import L = LinSystem
  import LinSafety
  import LinDrain
  import Paths

  // ----- Every operation can be carried out from start to end -----

  /** Nobody holds a lock, and every machine has a thread and a value. */
  ghost predicate Calm(s: Cluster) {
    forall m: nat :: m < |s.memories| ==>
      !s.memories[m].lock && |s.memories[m].stages| > 0 && |s.memories[m].value| > 0
  }

  function Lifted(m: nat, accesses: seq<Seqlock.Step>): (r: seq<LinCluster.Step>)
    ensures |r| == |accesses|
  {
    seq(|accesses|, i requires 0 <= i < |accesses| => Access(m, accesses[i]))
  }

  predicate NoDecision(accesses: seq<Seqlock.Step>) {
    forall i :: 0 <= i < |accesses| ==> !accesses[i].Decide?
  }

  lemma {:induction false} LiftPath(s: Cluster, m: nat, accesses: seq<Seqlock.Step>, u: Memory)
    requires Shaped(s) && m < |s.memories| && Leads(s.memories[m], accesses, u) && NoDecision(accesses)
    ensures Path(s, Lifted(m, accesses), s.(memories := s.memories[m := u]))
    decreases |accesses|
  {
    if accesses == [] {
      assert s.memories[m := u] == s.memories;
    } else {
      var step := Access(m, accesses[0]);
      var t := LinCluster.Next(s, step);
      LiftPath(t, m, accesses[1..], u);
      assert t.memories[m := u] == s.memories[m := u];
      assert StepsTo(s, step, t);
      assert Lifted(m, accesses)[0] == step && Lifted(m, accesses)[1..] == Lifted(m, accesses[1..]);
    }
  }

  lemma LiftedStores(m: nat, accesses: seq<Seqlock.Step>)
    requires !NoStore(accesses)
    ensures !NoStoreAt(Lifted(m, accesses), m)
  {
    var i :| 0 <= i < |accesses| && accesses[i].StoreByte?;
    assert StoresByte(Lifted(m, accesses)[i], m);
  }

  /** The first thread locks the line and bumps its version. */
  lemma Entering(s: Memory) returns (accesses: seq<Seqlock.Step>, u: Memory)
    requires |s.stages| > 0 && s.stages[0].Idle? && !s.lock
    ensures Leads(s, accesses, u) && NoDecision(accesses)
    ensures u == s.(lock := true, version := s.version + 1, stages := s.stages[0 := Bumped])
  {
    var t := Seqlock.Next(s, Acquire(0));
    Extend(s, [], s, Acquire(0));
    Extend(s, [Acquire(0)], t, Bump(0));
    accesses, u := [Acquire(0)] + [Bump(0)], Seqlock.Next(t, Bump(0));
  }

  /** It finishes its section, storing a byte if the section is an update's. */
  lemma Finishing(s: Memory, section: Section) returns (accesses: seq<Seqlock.Step>, u: Memory)
    requires |s.stages| > 0 && s.stages[0] == Busy(section) && |s.value| > 0
    ensures Leads(s, accesses, u) && NoDecision(accesses) && (section.kind.LinUpdate? ==> !NoStore(accesses))
    ensures !u.lock && |u.stages| == |s.stages| && |u.value| == |s.value|
  {
    accesses, u := [], s;
    if section.kind.LinUpdate? {
      Extend(s, [], s, StoreByte(0, 0, 0));
      accesses, u := [StoreByte(0, 0, 0)], Seqlock.Next(s, StoreByte(0, 0, 0));
    }
    var rest, w := FinishQuietly(u, 0, section);
    LeadsThen(s, accesses, u, rest, w);
    Extend(s, accesses + rest, w, Release(0));
    ghost var store := accesses;
    accesses, u := accesses + rest + [Release(0)], Seqlock.Next(w, Release(0));
    assert section.kind.LinUpdate? ==> accesses[0] == store[0];
  }

  /** Two clusters that differ in machine `m`'s memory only. */
  ghost predicate SameBut(s: Cluster, u: Cluster, m: nat) {
    && m < |s.memories| == |u.memories| && u == s.(memories := s.memories[m := u.memories[m]])
    && |u.memories[m].stages| == |s.memories[m].stages| && |u.memories[m].value| == |s.memories[m].value|
  }

  lemma EnterLine(s: Cluster, m: nat) returns (steps: seq<LinCluster.Step>, u: Cluster)
    requires Linked(s) && m < |s.memories| && !s.memories[m].lock && |s.memories[m].stages| > 0
    ensures Path(s, steps, u) && SameBut(s, u, m) && u.memories[m].stages[0].Bumped?
  {
    var accesses, mem := Entering(s.memories[m]);
    LiftPath(s, m, accesses, mem);
    steps, u := Lifted(m, accesses), s.(memories := s.memories[m := mem]);
  }

  lemma FinishLine(s: Cluster, m: nat, section: Section) returns (steps: seq<LinCluster.Step>, u: Cluster)
    requires Shaped(s) && m < |s.memories| && |s.memories[m].value| > 0
    requires |s.memories[m].stages| > 0 && s.memories[m].stages[0] == Busy(section)
    ensures Path(s, steps, u) && SameBut(s, u, m) && !u.memories[m].lock
    ensures section.kind.LinUpdate? ==> !NoStoreAt(steps, m)
  {
    var accesses, mem := Finishing(s.memories[m], section);
    LiftPath(s, m, accesses, mem);
    steps, u := Lifted(m, accesses), s.(memories := s.memories[m := mem]);
    if section.kind.LinUpdate? { LiftedStores(m, accesses); }
  }

  /** The operation is an update that its machine accepts. */
  predicate Updates(s: L.System, op: L.Step)
    requires L.Enabled(s, op)
  {
    op.DeliverUpd? && OnUpd(s.lines[op.upd.to], op.upd.ts, op.upd.value).1.UpdSuccess?
  }

  lemma UpdateSection(s: L.System, m: nat, op: L.Step)
    requires L.Enabled(s, op) && !IsLoss(op) && MachineOf(op) == m
    ensures m < |s.lines| && (Updates(s, op) ==> SectionFor(s.lines[m], m, |s.lines|, op).kind.LinUpdate?)
  {
  }

  lemma OperateLine(s: Cluster, m: nat, op: L.Step) returns (operate: LinCluster.Step, u: Cluster)
    requires Linked(s) && m < |s.memories| && |s.memories[m].stages| > 0 && s.memories[m].stages[0].Bumped?
    requires L.Enabled(s.system, op) && !IsLoss(op) && MachineOf(op) == m
    ensures StepsTo(s, operate, u) && operate.Operate? && operate.op == op
    ensures Updates(s.system, op) ==> operate.section.kind.LinUpdate?
    ensures SameBut(s.(system := u.system), u, m) && u.memories[m].stages[0] == Busy(operate.section)
  {
    operate := Operate(m, 0, op, SectionFor(s.system.lines[m], m, |s.system.lines|, op));
    UpdateSection(s.system, m, op);
    NeverBlocked(s, m, 0, op);
    u := LinCluster.Next(s, operate);
  }

  lemma ThreeParts(
    s: Cluster, entry: seq<LinCluster.Step>, t: Cluster, step: LinCluster.Step, v: Cluster,
    rest: seq<LinCluster.Step>, u: Cluster)
    requires Path(s, entry, t) && StepsTo(t, step, v) && Path(v, rest, u)
    ensures Path(s, entry + [step] + rest, u)
  {
    Paths.LeadsOne(StepsTo, t, step, v);
    Paths.LeadsThen(StepsTo, s, entry, t, [step], v);
    Paths.LeadsThen(StepsTo, s, entry + [step], v, rest, u);
  }

  lemma CalmAgain(s: Cluster, t: Cluster, v: Cluster, u: Cluster, m: nat)
    requires Calm(s) && SameBut(s, t, m) && SameBut(t.(system := v.system), v, m) && SameBut(v, u, m)
    requires !u.memories[m].lock
    ensures Calm(u)
  {
    assert |s.memories[m].stages| > 0;
    forall x: nat | x < |u.memories| && x != m ensures u.memories[x] == s.memories[x] { }
  }

  /** One thread carries out the operation from start to end. An update stores a byte. */
  lemma Perform(s: Cluster, op: L.Step) returns (steps: seq<LinCluster.Step>, u: Cluster)
    requires Linked(s) && Calm(s) && L.Enabled(s.system, op) && !IsLoss(op)
    ensures Path(s, steps, u) && Calm(u) && u.system == L.Next(s.system, op)
    ensures Updates(s.system, op) ==> !NoStoreAt(steps, MachineOf(op))
  {
    var m := MachineOf(op);
    var entry, t := EnterLine(s, m);
    PathLinked(s, entry, t);
    var operate, v := OperateLine(t, m, op);
    var rest;
    rest, u := FinishLine(v, m, operate.section);
    ThreeParts(s, entry, t, operate, v, rest, u);
    CalmAgain(s, t, v, u, m);
    steps := entry + [operate] + rest;
    if operate.section.kind.LinUpdate? { StoreInSuffix(entry + [operate], rest, m); }
  }

  lemma StoreInSuffix(a: seq<LinCluster.Step>, b: seq<LinCluster.Step>, m: nat)
    requires !NoStoreAt(a, m) || !NoStoreAt(b, m)
    ensures !NoStoreAt(a + b, m)
  {
    if i :| 0 <= i < |a| && StoresByte(a[i], m) {
      assert (a + b)[i] == a[i];
    } else {
      var i :| 0 <= i < |b| && StoresByte(b[i], m);
      assert (a + b)[|a| + i] == b[i];
    }
  }

  /** The cluster is at rest in this state of the protocol. */
  ghost predicate RestsAt(s: Cluster, system: L.System) {
    Linked(s) && Calm(s) && s.system == system
  }

  /** A step of the protocol that loses nothing. */
  ghost predicate Sound(s: L.System, op: L.Step, u: L.System) {
    ProtocolStep(s, op, u) && !IsLoss(op)
  }

  /** Every run of the protocol is also made by accesses. */
  lemma RunCarriedOut(s: Cluster, ops: seq<L.Step>, system: L.System)
    returns (steps: seq<LinCluster.Step>, u: Cluster)
    requires RestsAt(s, s.system) && Paths.Leads(Sound, s.system, ops, system)
    ensures Path(s, steps, u) && RestsAt(u, system)
  {
    forall t, c, op, d | RestsAt(t, c) && Sound(c, op, d) ensures Paths.Matched(StepsTo, RestsAt, t, d) {
      var more, v := Perform(t, op);
      PathLinked(t, more, v);
    }
    steps, u := Paths.Simulated(StepsTo, Sound, RestsAt, s, s.system, ops, system);
  }

  // ----- Delivering everything -----

  lemma NextDelivery(s: L.System) returns (op: L.Step)
    requires LinSafety.Safe(s) && !LinDrain.Drained(s)
    ensures L.Enabled(s, op) && LinDrain.Delivery(op)
  {
    if s.invs != multiset{} {
      var inv :| inv in s.invs;
      assert LinSafety.InvOk(s, inv);
      op := L.DeliverInv(inv);
    } else if s.acks != multiset{} {
      var ack :| ack in s.acks;
      assert LinSafety.AckOk(s, ack) && LinSafety.ClockOk(s, Timestamp(ack.version, ack.to));
      op := L.DeliverAck(ack, 0);
    } else {
      var upd :| upd in s.upds;
      assert LinSafety.UpdOk(s, upd);
      op := L.DeliverUpd(upd);
    }
  }

  /** Not readable with another machine's write. */
  predicate Awaiting(l: Line, m: nat) {
    !l.state.Valid? || l.cid == m
  }

  lemma ActAwaits(l: Line, m: nat, machines: nat, op: L.Step)
    requires machines >= 1 && !IsLoss(op) && Awaiting(l, m) && !Awaiting(Act(l, m, machines, op).0, m)
    ensures op.DeliverUpd? && OnUpd(l, op.upd.ts, op.upd.value).1.UpdSuccess?
  {
  }

  lemma DeliveryIssues(s: L.System, op: L.Step)
    requires |s.acked| == |s.lines| && L.Enabled(s, op) && LinDrain.Delivery(op)
    ensures L.Next(s, op).issued == s.issued
  {
  }

  /** Only an update can make another machine's write readable. */
  lemma UpdateEndsWait(s: L.System, op: L.Step, u: L.System, m: nat)
    requires Sound(s, op, u) && m < |s.lines| && Awaiting(s.lines[m], m) && !Awaiting(u.lines[m], m)
    ensures Updates(s, op) && op.upd.to == m
  {
    OperationLine(s, op);
    ActAwaits(s.lines[m], m, |s.lines|, op);
  }

  lemma DeliverOne(s: L.System) returns (op: L.Step, u: L.System)
    requires LinSafety.Safe(s) && LinDrain.Live(s) && !LinDrain.Drained(s)
    ensures Sound(s, op, u) && LinSafety.Safe(u) && LinDrain.Live(u)
    ensures LinDrain.Fewer(u, s) && u.issued == s.issued && |u.lines| == |s.lines|
  {
    op := NextDelivery(s);
    u := L.Next(s, op);
    LinDrain.StepLive(s, op);
    LinDrain.DeliveryShrinks(s, op);
    DeliveryIssues(s, op);
  }

  /** Whatever is in flight can be delivered, and then all copies are readable at the largest clock issued. */
  lemma {:induction false} DeliverAll(s: L.System) returns (ops: seq<L.Step>, u: L.System)
    requires LinSafety.Safe(s) && LinDrain.Live(s)
    ensures Paths.Leads(Sound, s, ops, u)
    ensures LinDrain.Converged(u) && u.issued == s.issued && |u.lines| == |s.lines|
    decreases |s.invs|, |s.acks|, |s.upds|
  {
    if LinDrain.Drained(s) {
      LinDrain.DrainedConverged(s);
      ops, u := [], s;
    } else {
      var op, t := DeliverOne(s);
      var rest;
      rest, u := DeliverAll(t);
      assert ([op] + rest)[1..] == rest;
      ops := [op] + rest;
    }
  }

  /** The steps go from one to the other, and store a byte of machine `m` on the way. */
  ghost predicate Hides(s: Cluster, steps: seq<LinCluster.Step>, u: Cluster, m: nat) {
    Path(s, steps, u) && !NoStoreAt(steps, m)
  }

  /** A run of the protocol that ends a machine's wait for another's write can be made with a store. */
  lemma WaitEndsWithStore(s: Cluster, ops: seq<L.Step>, system: L.System, m: nat)
    returns (steps: seq<LinCluster.Step>, u: Cluster)
    requires RestsAt(s, s.system) && Paths.Leads(Sound, s.system, ops, system)
    requires m < |s.system.lines| == |system.lines|
    requires Awaiting(s.system.lines[m], m) && !Awaiting(system.lines[m], m)
    ensures Hides(s, steps, u, m) && RestsAt(u, system)
  {
    var waits := (x: L.System) => m < |x.lines| && Awaiting(x.lines[m], m);
    var a, x, op, y, b := Paths.Crossing(Sound, waits, s.system, ops, system);
    UpdateEndsWait(x, op, y, m);
    var first, t := RunCarriedOut(s, a, x);
    var middle, v := Perform(t, op);
    PathLinked(t, middle, v);
    var last;
    last, u := RunCarriedOut(v, b, system);
    Paths.LeadsThen(StepsTo, s, first, t, middle, v);
    Paths.LeadsThen(StepsTo, s, first + middle, v, last, u);
    StoreInSuffix(first, middle, m);
    StoreInSuffix(first + middle, last, m);
    steps := first + middle + last;
  }

  // ----- Reaching a sample -----

  ghost predicate SafeAndLive(s: L.System) {
    LinSafety.Safe(s) && LinDrain.Live(s)
  }

  lemma SoundLive(s: L.System, ops: seq<L.Step>, u: L.System)
    requires SafeAndLive(s) && Paths.Leads(Sound, s, ops, u)
    ensures SafeAndLive(u)
  {
    forall a, op, b | SafeAndLive(a) && Sound(a, op, b) ensures SafeAndLive(b) { LinDrain.StepLive(a, op); }
    Paths.Kept(Sound, SafeAndLive, s, ops, u);
  }

  /** No clock was issued above this one. */
  ghost predicate Bounded(s: L.System, top: Timestamp) {
    forall ts :: ts in s.issued ==> AtMost(ts, top)
  }

  /** Machine `x` wrote up to version `v` for this session, and its last invalidations are in flight. */
  ghost predicate Wrote(s: L.System, u: L.System, x: nat, session: nat, v: nat) {
    && x < |s.lines| == |u.lines| == |u.acked| && u.lines == s.lines[x := u.lines[x]]
    && u.lines[x].state.Write? && ClockOf(u.lines[x]) == Timestamp(v, session)
    && Timestamp(v, x) in u.issued
    && (forall ts :: ts in u.issued && ts !in s.issued ==> AtMost(ts, Timestamp(v, x)))
    && (forall y: nat :: y < |s.lines| && y != x ==> L.Inv(Timestamp(v, x), y) in u.invs)
  }

  lemma PutOnce(s: L.System, x: nat, session: nat, v: nat) returns (ops: seq<L.Step>, u: L.System)
    requires x < |s.lines| == |s.acked| && v == s.lines[x].version + 2
    requires s.lines[x].state.Valid? || (s.lines[x].state.Write? && s.lines[x].cid == session)
    ensures Paths.Leads(Sound, s, ops, u) && Wrote(s, u, x, session, v)
  {
    var op, ts := L.Put(x, session, 0), Timestamp(v, x);
    u := L.Next(s, op);
    Paths.LeadsOne(Sound, s, op, u);
    ops := [op];
    forall y: nat | y < |s.lines| && y != x ensures L.Inv(ts, y) in u.invs {
      assert L.InvsOf(ts, |s.lines|)[L.Inv(ts, y)] == 1;
    }
  }

  lemma WroteThen(s: L.System, t: L.System, u: L.System, x: nat, session: nat, v: nat, w: nat)
    requires Wrote(s, t, x, session, v) && Wrote(t, u, x, session, w) && v <= w
    ensures Wrote(s, u, x, session, w)
  {
  }

  lemma {:induction false} PutRepeatedly(s: L.System, x: nat, session: nat, k: nat, v: nat)
    returns (ops: seq<L.Step>, u: L.System)
    requires x < |s.lines| == |s.acked| && s.lines[x].state.Valid? && k >= 1 && v == s.lines[x].version + 2 * k
    ensures Paths.Leads(Sound, s, ops, u) && Wrote(s, u, x, session, v)
    decreases k
  {
    if k == 1 {
      ops, u := PutOnce(s, x, session, v);
    } else {
      var first, t := PutRepeatedly(s, x, session, k - 1, v - 2);
      var last;
      last, u := PutOnce(t, x, session, v);
      WroteThen(s, t, u, x, session, v - 2, v);
      Paths.LeadsThen(Sound, s, first, t, last, u);
      ops := first + last;
    }
  }

  /** Machine `m` shows this word and state, and the word is the largest clock issued. */
  ghost predicate Showing(s: L.System, m: nat, word: Timestamp, state: State) {
    && m < |s.lines| == |s.acked| && ClockOf(s.lines[m]) == word && s.lines[m].state == state
    && word in s.issued && Bounded(s, word)
  }

  lemma Invalidate(s: L.System, m: nat, ts: Timestamp) returns (op: L.Step, u: L.System)
    requires m < |s.lines| == |s.acked| && s.lines[m].state.Valid? && Less(ClockOf(s.lines[m]), ts)
    requires L.Inv(ts, m) in s.invs && ts in s.issued && Bounded(s, ts)
    ensures Sound(s, op, u) && Showing(u, m, ts, Invalid)
  {
    op := L.DeliverInv(L.Inv(ts, m));
    u := L.Next(s, op);
  }

  /** Another machine writes up to the version, and machine `m` gets the last invalidation. */
  lemma ShowInvalid(machines: nat, initial: Value, m: nat, k: nat, c: nat) returns (ops: seq<L.Step>, s: L.System)
    requires m < machines && c < machines && m != c && k >= 1
    ensures Paths.Leads(Sound, L.Initial(machines, initial), ops, s) && Showing(s, m, Timestamp(2 * k, c), Invalid)
  {
    var s0 := L.Initial(machines, initial);
    var puts, t := PutRepeatedly(s0, c, 0, k, 2 * k);
    var op;
    op, s := Invalidate(t, m, Timestamp(2 * k, c));
    Paths.LeadsOne(Sound, t, op, s);
    Paths.LeadsThen(Sound, s0, puts, t, [op], s);
    ops := puts + [op];
  }

  lemma BothWrote(s: L.System, t: L.System, u: L.System, m: nat, c: nat, v: nat)
    requires Wrote(s, t, m, c, v) && Wrote(t, u, c, 0, v) && m < c && Bounded(s, Timestamp(v, c))
    ensures Showing(u, m, Timestamp(v, c), Write)
  {
    assert u.lines[m] == t.lines[m];
    forall ts | ts in u.issued ensures AtMost(ts, Timestamp(v, c)) {
      assert ts !in t.issued || ts in s.issued || AtMost(ts, Timestamp(v, m));
    }
  }

  /** Machine `m` writes up to the version for session `c`, and so does machine `c`. */
  lemma ShowWrite(machines: nat, initial: Value, m: nat, k: nat, c: nat) returns (ops: seq<L.Step>, s: L.System)
    requires m < c < machines && k >= 1
    ensures Paths.Leads(Sound, L.Initial(machines, initial), ops, s) && Showing(s, m, Timestamp(2 * k, c), Write)
  {
    var s0 := L.Initial(machines, initial);
    var mine, t := PutRepeatedly(s0, m, c, k, 2 * k);
    var others;
    others, s := PutRepeatedly(t, c, 0, k, 2 * k);
    BothWrote(s0, t, s, m, c, 2 * k);
    Paths.LeadsThen(Sound, s0, mine, t, others, s);
    ops := mine + others;
  }

  /** A stalled GET turns a state into its replay state. */
  lemma ShowReplay(s0: L.System, ops: seq<L.Step>, s: L.System, m: nat, word: Timestamp, state: State)
    requires Paths.Leads(Sound, s0, ops, s) && Showing(s, m, word, state)
    ensures Showing(L.Next(s, L.Get(m)), m, word, Replayed(state))
    ensures Paths.Leads(Sound, s0, ops + [L.Get(m)], L.Next(s, L.Get(m)))
  {
    Paths.LeadsOne(Sound, s, L.Get(m), L.Next(s, L.Get(m)));
    Paths.LeadsThen(Sound, s0, ops, s, [L.Get(m)], L.Next(s, L.Get(m)));
  }

  // ----- Which samples can be trusted -----

  /** A run in which machine `m` shows the word and the state, then the same word again, with a byte stored between. */
  ghost predicate Deceives(
    s0: Cluster, m: nat, word: Timestamp, state: State,
    before: seq<LinCluster.Step>, s: Cluster, between: seq<LinCluster.Step>, end: Cluster)
  {
    && Path(s0, before, s) && Word(MemoryAt(s, m)) == word && MemoryAt(s, m).state == state
    && Hides(s, between, end, m) && Word(MemoryAt(end, m)) == word
  }

  lemma RestingWord(s: Cluster, m: nat)
    requires Linked(s) && Calm(s) && m < |s.memories|
    ensures Word(MemoryAt(s, m)) == ClockOf(s.system.lines[m]) && MemoryAt(s, m).state == s.system.lines[m].state
  {
    assert MemoryOk(s.memories[m], s.system.lines[m], m, |s.memories|);
    assert !s.memories[m].lock;
  }

  /** Delivering everything makes the copy readable at the clock it shows. */
  lemma DeliverySettles(s: L.System, m: nat, word: Timestamp, state: State) returns (ops: seq<L.Step>, u: L.System)
    requires SafeAndLive(s) && Showing(s, m, word, state)
    ensures Paths.Leads(Sound, s, ops, u) && |u.lines| == |s.lines|
    ensures u.lines[m].state.Valid? && ClockOf(u.lines[m]) == word
  {
    ops, u := DeliverAll(s);
    assert AtMost(u.committed, word) && AtMost(word, u.committed);
    assert L.StampOf(u, m) == word;
  }

  lemma ShownDeceives(s0: Cluster, ops: seq<L.Step>, shown: L.System, m: nat, word: Timestamp, state: State)
    returns (before: seq<LinCluster.Step>, s: Cluster, between: seq<LinCluster.Step>, end: Cluster)
    requires RestsAt(s0, s0.system) && SafeAndLive(s0.system) && Paths.Leads(Sound, s0.system, ops, shown)
    requires Showing(shown, m, word, state) && !state.Valid? && word.cid != m
    ensures Deceives(s0, m, word, state, before, s, between, end)
  {
    SoundLive(s0.system, ops, shown);
    before, s := RunCarriedOut(s0, ops, shown);
    RestingWord(s, m);
    var rest, settled := DeliverySettles(shown, m, word, state);
    between, end := WaitEndsWithStore(s, rest, settled, m);
    RestingWord(end, m);
  }

  /** A sample that a store can follow unseen: of an invalid copy, or of a write that shows a larger machine id. */
  predicate Unsteady(machines: nat, m: nat, word: Timestamp, state: State) {
    && word.version > 0 && word.version % 2 == 0 && word.cid < machines
    && if IsInvalid(state) then word.cid != m else IsWrite(state) && word.cid > m
  }

  lemma ShowSample(machines: nat, initial: Value, m: nat, word: Timestamp, state: State)
    returns (ops: seq<L.Step>, s: L.System)
    requires m < machines && Unsteady(machines, m, word, state)
    ensures Paths.Leads(Sound, L.Initial(machines, initial), ops, s) && Showing(s, m, word, state)
  {
    var k := word.version / 2;
    assert word == Timestamp(2 * k, word.cid);
    if IsInvalid(state) {
      ops, s := ShowInvalid(machines, initial, m, k, word.cid);
    } else {
      ops, s := ShowWrite(machines, initial, m, k, word.cid);
    }
    if state.InvalidReplay? || state.WriteReplay? {
      ShowReplay(L.Initial(machines, initial), ops, s, m, word, if IsInvalid(state) then Invalid else Write);
      ops, s := ops + [L.Get(m)], L.Next(s, L.Get(m));
    }
  }

  lemma InitialRests(machines: nat, initial: Value, threads: nat, value: seq<Byte>)
    requires machines >= 2 && threads > 0 && |value| > 0
    ensures var s0 := LinCluster.Initial(machines, initial, threads, value);
            RestsAt(s0, s0.system) && SafeAndLive(s0.system)
  {
    InitialLinked(machines, initial, threads, value);
    LinDrain.InitialLive(machines, initial);
  }

  /** For every such sample there is a run of the cluster, from its initial state, that it does not show a store of. */
  lemma UnsteadySamplesHideStore(
    machines: nat, initial: Value, threads: nat, value: seq<Byte>, m: nat, word: Timestamp, state: State)
    returns (before: seq<LinCluster.Step>, s: Cluster, between: seq<LinCluster.Step>, end: Cluster)
    requires machines >= 2 && m < machines && threads > 0 && |value| > 0 && Unsteady(machines, m, word, state)
    ensures Deceives(LinCluster.Initial(machines, initial, threads, value), m, word, state, before, s, between, end)
  {
    var ops, shown := ShowSample(machines, initial, m, word, state);
    InitialRests(machines, initial, threads, value);
    before, s, between, end :=
      ShownDeceives(LinCluster.Initial(machines, initial, threads, value), ops, shown, m, word, state);
  }

  // ----- The samples a machine can see -----

  /** Clocks at version zero are the initial one; writes and invalidations have a larger version. */
  ghost predicate Numbered(s: L.System) {
    && LinSafety.Safe(s)
    && (forall ts :: ts in s.issued ==> ts.version > 0 || ts == ZERO)
    && (forall m: nat :: m < |s.lines| ==> LineNumbered(s.lines[m], m))
  }

  predicate LineNumbered(l: Line, m: nat) {
    !l.state.Valid? ==> l.version > 0 && (IsInvalid(l.state) ==> l.cid != m)
  }

  lemma ActNumbered(l: Line, m: nat, machines: nat, op: L.Step)
    requires machines >= 1 && !IsLoss(op) && LineNumbered(l, m)
    requires op.DeliverInv? ==> op.inv.ts.cid != m && (op.inv.ts.version > 0 || op.inv.ts == ZERO)
    ensures LineNumbered(Act(l, m, machines, op).0, m)
  {
  }

  lemma IssuedNumbered(s: L.System, op: L.Step)
    requires |s.acked| == |s.lines| && L.Enabled(s, op)
    requires forall ts :: ts in s.issued ==> ts.version > 0 || ts == ZERO
    ensures forall ts :: ts in L.Next(s, op).issued ==> ts.version > 0 || ts == ZERO
  {
  }

  lemma LinesNumbered(s: L.System, op: L.Step)
    requires Numbered(s) && L.Enabled(s, op)
    ensures forall m: nat :: m < |s.lines| ==> LineNumbered(L.Next(s, op).lines[m], m)
  {
    if IsLoss(op) {
      assert L.Next(s, op).lines == s.lines;
    } else {
      OperationLine(s, op);
      if op.DeliverInv? { assert LinSafety.InvOk(s, op.inv); }
      var m := MachineOf(op);
      ActNumbered(s.lines[m], m, |s.lines|, op);
    }
  }

  lemma PathNumbered(s: L.System, ops: seq<L.Step>, u: L.System)
    requires Numbered(s) && ProtocolPath(s, ops, u)
    ensures Numbered(u)
  {
    forall a, op, b | Numbered(a) && ProtocolStep(a, op, b) ensures Numbered(b) {
      LinSafety.StepSafe(a, op);
      IssuedNumbered(a, op);
      LinesNumbered(a, op);
    }
    Paths.Kept(ProtocolStep, Numbered, s, ops, u);
  }

  /** At an even version, whatever a machine shows is the protocol's copy. */
  lemma EvenShowsLine(s: Memory, l: Line, m: nat, machines: nat)
    requires MemoryOk(s, l, m, machines) && s.version % 2 == 0
    ensures Word(s) == ClockOf(l) && s.state == l.state
  {
    EvenIsBase(s);
  }

  lemma UnsteadyLine(s: L.System, m: nat)
    requires Numbered(s) && m < |s.lines| && !Steady(m, |s.lines|, ClockOf(s.lines[m]), s.lines[m].state)
    ensures Unsteady(|s.lines|, m, ClockOf(s.lines[m]), s.lines[m].state)
  {
    assert LineNumbered(s.lines[m], m) && LinSafety.LineOk(s, m) && LinSafety.ClockOk(s, L.StampOf(s, m));
  }

  lemma ReachedNumbered(machines: nat, initial: Value, threads: nat, value: seq<Byte>,
                        before: seq<LinCluster.Step>, s: Cluster)
    requires machines >= 2 && Path(LinCluster.Initial(machines, initial, threads, value), before, s)
    ensures Linked(s) && |s.memories| == machines && Numbered(s.system)
  {
    var s0 := LinCluster.Initial(machines, initial, threads, value);
    InitialLinked(machines, initial, threads, value);
    PathProjects(s0, before, s, 0);
    PathRefines(s0, before, s);
    PathNumbered(s0.system, Operations(before), s.system);
  }

  lemma SampleUnsteady(s: Cluster, m: nat)
    requires Linked(s) && Numbered(s.system) && m < |s.memories| && s.memories[m].version % 2 == 0
    requires !Steady(m, |s.memories|, Word(s.memories[m]), s.memories[m].state)
    ensures Unsteady(|s.memories|, m, Word(s.memories[m]), s.memories[m].state)
  {
    EvenShowsLine(s.memories[m], s.system.lines[m], m, |s.memories|);
    UnsteadyLine(s.system, m);
  }

  lemma SteadyNeverDeceives(s: Cluster, m: nat, between: seq<LinCluster.Step>, end: Cluster)
    requires Linked(s) && m < |s.memories| && s.memories[m].version % 2 == 0 && Path(s, between, end)
    requires Steady(m, |s.memories|, Word(s.memories[m]), s.memories[m].state)
    requires Word(MemoryAt(end, m)) == Word(MemoryAt(s, m))
    ensures NoStoreAt(between, m)
  {
    PathProjects(s, between, end, m);
    MemoryRuns(s.memories[m], Accesses(between, m), MemoryAt(end, m));
    assert MemoryOk(s.memories[m], s.system.lines[m], m, |s.memories|);
    SteadySamplesSeeOneValue(s.memories[m], Accesses(between, m));
    NoStoreProjects(between, m);
  }

  /** No run deceives a reader who sees this word and state first. */
  ghost predicate SamplesSuffice(s0: Cluster, m: nat, word: Timestamp, state: State) {
    forall before, s, between, end :: !Deceives(s0, m, word, state, before, s, between, end)
  }

  /**
   When the comparison of samples is enough under the linearizable protocol. Take any even sample that some run of the
   cluster shows: agreeing samples that start with it rule out a store, in every run, exactly when it shows a readable
   copy, or a write whose session id is at most the machine's id or no machine's id at all.
   */
  lemma SamplesSufficeIff(machines: nat, initial: Value, threads: nat, value: seq<Byte>, m: nat,
                          before: seq<LinCluster.Step>, s: Cluster)
    requires machines >= 2 && m < machines && threads > 0 && |value| > 0
    requires Path(LinCluster.Initial(machines, initial, threads, value), before, s) && MemoryAt(s, m).version % 2 == 0
    ensures var word, state := Word(MemoryAt(s, m)), MemoryAt(s, m).state;
            SamplesSuffice(LinCluster.Initial(machines, initial, threads, value), m, word, state)
            <==> state.Valid? || (IsWrite(state) && (word.cid <= m || word.cid >= machines))
  {
    var s0 := LinCluster.Initial(machines, initial, threads, value);
    var word, state := Word(MemoryAt(s, m)), MemoryAt(s, m).state;
    if Steady(m, machines, word, state) {
      forall b, t, between, end ensures !Deceives(s0, m, word, state, b, t, between, end) {
        if Path(s0, b, t) && Word(MemoryAt(t, m)) == word && MemoryAt(t, m).state == state && Path(t, between, end)
           && Word(MemoryAt(end, m)) == word {
          ReachedNumbered(machines, initial, threads, value, b, t);
          SteadyNeverDeceives(t, m, between, end);
        }
      }
    } else {
      ReachedNumbered(machines, initial, threads, value, before, s);
      SampleUnsteady(s, m);
      var b, t, between, end := UnsteadySamplesHideStore(machines, initial, threads, value, m, word, state);
    }
  }
}
