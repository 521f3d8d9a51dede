/**
 The OPTIK lock at the granularity of single memory accesses: any number of threads interleave the
 compare-and-swap, the version bump, the value bytes, the state, the cid, the version and the release, while
 lock-free readers compare two samples of the (version, cid) word.
 */
module Seqlock {
  import opened Clock
  import opened Lin

  type Byte = int

  /** Invalidations of the linearizable protocol carry the id of one of its machines. */
  datatype Protocol = Sequential | Linearizable(machines: nat)

  /** What a critical section does once it has looked at the locked line. */
  datatype Kind = ScPut | ScUpdate | LinPut | LinUpdate | LinInv | LastAck | Restore

  /** The clock and the state the section leaves behind. Where it keeps one, its store writes what is there. */
  datatype Section = Section(kind: Kind, target: Timestamp, state: State)

  /** How far a thread is through its critical section. */
  datatype Stage =
    | Idle
    | Locked
    | Bumped
    | Busy(section: Section)
    | StateStored(section: Section)
    | CidStored(section: Section)
    | Releasing

  /** `base` and `was` are history: the clock and the state of the line when it was last unlocked. */
  datatype Memory = Memory(
    protocol: Protocol,
    machine: nat,
    lock: bool,
    version: nat,
    cid: nat,
    state: State,
    value: seq<Byte>,
    stages: seq<Stage>,
    base: Timestamp,
    was: State)

  datatype Step =
    | Acquire(t: nat)
    | Bump(t: nat)
    | Decide(t: nat, section: Section)
    | StoreByte(t: nat, k: nat, b: Byte)
    | StoreState(t: nat)
    | StoreCid(t: nat)
    | StoreVersion(t: nat)
    | Release(t: nat)

  function Word(s: Memory): Timestamp {
    Timestamp(s.version, s.cid)
  }

  function Initial(protocol: Protocol, machine: nat, threads: nat, value: seq<Byte>): Memory {
    Memory(protocol, machine, false, 0, 0, Valid, value, seq(threads, _ => Idle), ZERO, Valid)
  }

  predicate IsWrite(state: State) {
    state.Write? || state.WriteReplay?
  }

  predicate IsInvalid(state: State) {
    state.Invalid? || state.InvalidReplay?
  }

  /** The state a stalled GET leaves. */
  function Replayed(state: State): State {
    if state.Invalid? then InvalidReplay else if state.Write? then WriteReplay else state
  }

  /** The sections each protocol runs on a line with this clock and state. */
  predicate Legal(protocol: Protocol, machine: nat, clock: Timestamp, state: State, section: Section) {
    var locked, target := clock.version + 1, section.target;
    match section.kind
    case ScPut => protocol.Sequential? && target == Timestamp(locked + 1, machine) && section.state == state
    case ScUpdate =>
      && protocol.Sequential? && target.version % 2 == 0
      && IsGreaterVersion(locked, clock.cid, target) && section.state == state
    case LinPut =>
      && protocol.Linearizable? && target.version == locked + 1 && !state.InvalidReplay?
      && (state.Write? ==> target.cid >= clock.cid) && (state.WriteReplay? ==> target.cid > clock.cid)
      && section.state == if IsWrite(state) then state else Write
    case LinUpdate =>
      && protocol.Linearizable? && IsSameVersionPlusOne(locked, clock.cid, target)
      && IsInvalid(state) && section.state == Valid
    case LinInv =>
      && protocol.Linearizable? && target.version % 2 == 0 && target.cid < protocol.machines
      && IsGreaterVersion(locked, if IsWrite(state) then machine else clock.cid, target)
      && section.state == if state.InvalidReplay? || state.WriteReplay? then InvalidReplay else Invalid
    case LastAck =>
      protocol.Linearizable? && IsWrite(state) && target == Timestamp(clock.version, machine) && section.state == Valid
    case Restore =>
      target == clock && (section.state == state || (protocol.Linearizable? && section.state == Replayed(state)))
  }

  /** A put of the linearizable protocol sets the state first; the other writes copy the value first. */
  predicate Copies(stage: Stage) {
    || (stage.Busy? && (stage.section.kind.ScPut? || stage.section.kind.ScUpdate? || stage.section.kind.LinUpdate?))
    || (stage.StateStored? && stage.section.kind.LinPut?)
  }

  predicate Enabled(s: Memory, step: Step) {
    && step.t < |s.stages|
    && var stage := s.stages[step.t];
       match step
       case Acquire(_) => stage.Idle? && !s.lock
       case Bump(_) => stage.Locked?
       case Decide(_, section) =>
         && stage.Bumped? && s.version > 0
         && Legal(s.protocol, s.machine, Timestamp(s.version - 1, s.cid), s.state, section)
       case StoreByte(_, k, _) => Copies(stage) && k < |s.value|
       case StoreState(_) => stage.Busy?
       case StoreCid(_) => stage.StateStored?
       case StoreVersion(_) => stage.CidStored?
       case Release(_) => stage.Releasing?
  }

  function Next(s: Memory, step: Step): Memory
    requires Enabled(s, step)
  {
    var t, stage := step.t, s.stages[step.t];
    match step
    case Acquire(_) => s.(lock := true, stages := s.stages[t := Locked])
    case Bump(_) => s.(version := s.version + 1, stages := s.stages[t := Bumped])
    case Decide(_, section) => s.(stages := s.stages[t := Busy(section)])
    case StoreByte(_, k, b) => s.(value := s.value[k := b])
    case StoreState(_) => s.(state := stage.section.state, stages := s.stages[t := StateStored(stage.section)])
    case StoreCid(_) => s.(cid := stage.section.target.cid, stages := s.stages[t := CidStored(stage.section)])
    case StoreVersion(_) =>
      s.(version := stage.section.target.version, stages := s.stages[t := Releasing],
         base := stage.section.target, was := stage.section.state)
    case Release(_) => s.(lock := false, stages := s.stages[t := Idle])
  }

  ghost predicate Runs(s: Memory, steps: seq<Step>)
    decreases |steps|
  {
    steps == [] || (Enabled(s, steps[0]) && Runs(Next(s, steps[0]), steps[1..]))
  }

  ghost function Final(s: Memory, steps: seq<Step>): Memory
    requires Runs(s, steps)
    decreases |steps|
  {
    if steps == [] then s else Final(Next(s, steps[0]), steps[1..])
  }

  /**
   The linearizable sections are exactly the transitions that succeed, with the clock and state they leave. The count
   of acks is no part of a memory: the section of a last ack is there if one outstanding ack would make it succeed.
   */
  lemma SectionsAreTransitions(l: Line, machine: nat, session: nat, ts: Timestamp, machines: nat, state: State)
    requires machines >= 1 && l.version % 2 == 0 && ts.version % 2 == 0 && ts.cid < machines
    ensures var (put, r) := OnPut(l, session, l.value, machines);
            Legal(Linearizable(machines), machine, Timestamp(l.version, l.cid), l.state,
                  Section(LinPut, Timestamp(l.version + 2, session), state))
            <==> r.PutSuccess? && put.version == l.version + 2 && put.cid == session && put.state == state
    ensures var (inv, r) := OnInv(l, machine, ts);
            Legal(Linearizable(machines), machine, Timestamp(l.version, l.cid), l.state, Section(LinInv, ts, state))
            <==> r.InvSuccess? && Timestamp(inv.version, inv.cid) == ts && inv.state == state
    ensures var (upd, r) := OnUpd(l, ts, l.value);
            Legal(Linearizable(machines), machine, Timestamp(l.version, l.cid), l.state, Section(LinUpdate, ts, state))
            <==> r.UpdSuccess? && Timestamp(upd.version, upd.cid) == ts && upd.state == state
    ensures var (ack, r) := OnAck(l.(pendingAcks := 1), machine, l.version);
            Legal(Linearizable(machines), machine, Timestamp(l.version, l.cid), l.state, Section(LastAck, ts, state))
            <==> r.LastAckSuccess? && Timestamp(ack.version, ack.cid) == ts && ack.state == state
    ensures OnGet(l).0 == l.(state := Replayed(l.state))
  {
  }

  // ----- Mutual exclusion and the parity of the version -----

  ghost predicate OnlyOne(s: Memory, t: nat)
    requires t < |s.stages|
  {
    s.lock && forall x: nat :: x < |s.stages| && x != t ==> s.stages[x].Idle?
  }

  /** What the metadata looks like to everyone while a thread is at the given stage. */
  ghost predicate SeenAt(s: Memory, stage: Stage) {
    var odd := Timestamp(s.base.version + 1, s.base.cid);
    match stage
    case Idle => true
    case Locked => Word(s) == s.base && s.state == s.was
    case Bumped => Word(s) == odd && s.state == s.was
    case Busy(section) => Word(s) == odd && s.state == s.was && Legal(s.protocol, s.machine, s.base, s.was, section)
    case StateStored(section) =>
      Word(s) == odd && s.state == section.state && Legal(s.protocol, s.machine, s.base, s.was, section)
    case CidStored(section) =>
      && Word(s) == Timestamp(odd.version, section.target.cid) && s.state == section.state
      && Legal(s.protocol, s.machine, s.base, s.was, section)
    case Releasing => Word(s) == s.base && s.state == s.was
  }

  ghost predicate Exclusive(s: Memory) {
    && s.base.version % 2 == 0 && (s.protocol.Linearizable? ==> s.machine < s.protocol.machines)
    && (!s.lock ==> Word(s) == s.base && s.state == s.was && forall x: nat :: x < |s.stages| ==> s.stages[x].Idle?)
    && (s.lock ==> exists t: nat :: t < |s.stages| && !s.stages[t].Idle?)
    && (forall t: nat :: t < |s.stages| && !s.stages[t].Idle? ==> OnlyOne(s, t) && SeenAt(s, s.stages[t]))
  }

  /** No section takes the version back, a put moves it on, and without acks no section takes the clock back. */
  lemma SectionGrows(protocol: Protocol, machine: nat, clock: Timestamp, state: State, section: Section)
    requires clock.version % 2 == 0 && Legal(protocol, machine, clock, state, section)
    ensures section.target.version % 2 == 0 && section.target.version >= clock.version
    ensures section.kind.ScPut? || section.kind.LinPut? ==> section.target.version > clock.version
    ensures protocol.Sequential? ==>
              AtMost(clock, section.target) && (section.kind.Restore? || Less(clock, section.target))
  {
  }

  /** Every memory access keeps mutual exclusion; the clock and the state change together, by a legal section. */
  lemma StepExclusive(s: Memory, step: Step)
    requires Exclusive(s) && Enabled(s, step)
    ensures var u := Next(s, step);
            && Exclusive(u) && u.protocol == s.protocol && u.machine == s.machine && |u.stages| == |s.stages|
            && if step.StoreVersion?
               then Legal(s.protocol, s.machine, s.base, s.was, Section(s.stages[step.t].section.kind, u.base, u.was))
               else u.base == s.base && u.was == s.was
  {
    var u, t := Next(s, step), step.t;
    if !step.Acquire? { assert OnlyOne(s, t) && SeenAt(s, s.stages[t]); }
    if step.StoreVersion? { SectionGrows(s.protocol, s.machine, s.base, s.was, s.stages[t].section); }
    forall x: nat | x < |u.stages| && !u.stages[x].Idle? ensures OnlyOne(u, x) && SeenAt(u, u.stages[x]) {
      assert x == t;
    }
    if !step.Release? { assert !u.stages[t].Idle?; }
  }

  /** What a whole run keeps. */
  ghost predicate Follows(s: Memory, u: Memory) {
    && Exclusive(u) && u.protocol == s.protocol && u.machine == s.machine && |u.stages| == |s.stages|
    && s.base.version <= u.base.version && (s.protocol.Sequential? ==> AtMost(s.base, u.base))
  }

  lemma {:induction false} RunExclusive(s: Memory, steps: seq<Step>)
    requires Exclusive(s) && Runs(s, steps)
    ensures Follows(s, Final(s, steps))
    decreases |steps|
  {
    if steps == [] {
    } else {
      var u := Next(s, steps[0]);
      StepExclusive(s, steps[0]);
      if steps[0].StoreVersion? {
        SectionGrows(s.protocol, s.machine, s.base, s.was, Section(s.stages[steps[0].t].section.kind, u.base, u.was));
      }
      RunExclusive(u, steps[1..]);
    }
  }

  /** At an even version the word is the line's clock: nobody is between the bump and the version store. */
  lemma EvenIsBase(s: Memory)
    requires Exclusive(s) && s.version % 2 == 0
    ensures Word(s) == s.base && s.state == s.was
    ensures forall t: nat :: t < |s.stages| ==> s.stages[t].Idle? || s.stages[t].Locked? || s.stages[t].Releasing?
  {
    if s.lock {
      var t: nat :| t < |s.stages| && !s.stages[t].Idle?;
      assert SeenAt(s, s.stages[t]);
    }
    forall t: nat | t < |s.stages| ensures s.stages[t].Idle? || s.stages[t].Locked? || s.stages[t].Releasing? {
      assert !s.stages[t].Idle? ==> SeenAt(s, s.stages[t]);
    }
  }

  /** Under the linearizable protocol the line never says VALID while a byte of its value changes. */
  lemma StoredUnreadable(s: Memory, step: Step)
    requires Exclusive(s) && s.protocol.Linearizable? && Enabled(s, step) && step.StoreByte?
    ensures !s.state.Valid? && s.version % 2 == 1
  {
    assert SeenAt(s, s.stages[step.t]);
  }
}
