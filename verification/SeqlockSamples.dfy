/** What a reader learns from two samples of the (version, cid) word that agree and are even. */
module SeqlockSamples {
  import opened Clock
  import opened Lin
  import opened Seqlock

  // ----- Cutting a run -----

  lemma {:induction false} RunSplit(s: Memory, steps: seq<Step>, i: nat)
    requires Runs(s, steps) && i <= |steps|
    ensures Runs(s, steps[..i]) && Runs(Final(s, steps[..i]), steps[i..])
    ensures Final(Final(s, steps[..i]), steps[i..]) == Final(s, steps)
    decreases i
  {
    if i == 0 {
      assert steps[..0] == [] && steps[0..] == steps;
    } else {
      RunSplit(Next(s, steps[0]), steps[1..], i - 1);
      assert steps[..i][0] == steps[0] && steps[..i][1..] == steps[1..][..i - 1] && steps[1..][i - 1..] == steps[i..];
    }
  }

  predicate InSection(stage: Stage) {
    stage.Busy? || stage.StateStored? || stage.CidStored?
  }

  /** A section under way stores its clock and its state before the version is even again. */
  lemma {:induction false} SectionEnds(s: Memory, steps: seq<Step>, t: nat) returns (u: Memory, rest: seq<Step>)
    requires Exclusive(s) && Runs(s, steps) && Final(s, steps).version % 2 == 0
    requires t < |s.stages| && InSection(s.stages[t])
    ensures Exclusive(u) && Runs(u, rest) && Final(u, rest) == Final(s, steps)
    ensures u.protocol == s.protocol && u.machine == s.machine
    ensures u.base == s.stages[t].section.target && u.was == s.stages[t].section.state
    decreases |steps|
  {
    assert OnlyOne(s, t) && SeenAt(s, s.stages[t]);
    if steps == [] {
      assert false;
    } else {
      var v := Next(s, steps[0]);
      StepExclusive(s, steps[0]);
      assert steps[0].t == t;
      if steps[0].StoreVersion? {
        u, rest := v, steps[1..];
      } else {
        u, rest := SectionEnds(v, steps[1..], t);
      }
    }
  }

  predicate NoStore(steps: seq<Step>) {
    forall i :: 0 <= i < |steps| ==> !steps[i].StoreByte?
  }

  // ----- Equal versions -----

  /** The section whose bytes step `i` of the run stores. */
  ghost function StoringSection(s: Memory, steps: seq<Step>, i: nat): Section
    requires Runs(s, steps) && i < |steps| && steps[i].StoreByte?
  {
    RunSplit(s, steps, i);
    Final(s, steps[..i]).stages[steps[i].t].section
  }

  /** Cuts a run just before it stores a byte, and again where the storing section ends. */
  lemma StoreEnds(s: Memory, steps: seq<Step>, i: nat) returns (at: Memory, u: Memory, rest: seq<Step>)
    requires Exclusive(s) && Runs(s, steps) && Final(s, steps).version % 2 == 0
    requires i < |steps| && steps[i].StoreByte?
    ensures Runs(s, steps[..i]) && at == Final(s, steps[..i]) && Follows(s, at)
    ensures Legal(s.protocol, s.machine, at.base, at.was, StoringSection(s, steps, i))
    ensures Exclusive(u) && Runs(u, rest) && Final(u, rest) == Final(s, steps) && Follows(u, Final(s, steps))
    ensures u.protocol == s.protocol && u.machine == s.machine
    ensures u.base == StoringSection(s, steps, i).target && u.was == StoringSection(s, steps, i).state
    ensures StoringSection(s, steps, i).kind in {ScPut, ScUpdate, LinPut, LinUpdate}
  {
    RunSplit(s, steps, i);
    RunExclusive(s, steps[..i]);
    at := Final(s, steps[..i]);
    assert steps[i..][0] == steps[i];
    assert SeenAt(at, at.stages[steps[i].t]);
    u, rest := SectionEnds(at, steps[i..], steps[i].t);
    RunExclusive(u, rest);
  }

  /**
   Whatever the protocol, equal even versions hide stores of one kind only: those of an update that found the
   line at that very version and left it there.
   */
  lemma EqualVersionsHideOnlyUpdates(s: Memory, steps: seq<Step>, i: nat)
    requires Exclusive(s) && Runs(s, steps) && s.version % 2 == 0 && Final(s, steps).version == s.version
    requires i < |steps| && steps[i].StoreByte?
    ensures StoringSection(s, steps, i).target.version == s.version
    ensures StoringSection(s, steps, i).kind == if s.protocol.Sequential? then ScUpdate else LinUpdate
  {
    var at, u, rest := StoreEnds(s, steps, i);
    RunExclusive(s, steps);
    EvenIsBase(s);
    EvenIsBase(Final(s, steps));
    SectionGrows(s.protocol, s.machine, at.base, at.was, StoringSection(s, steps, i));
  }

  /** Step `i` stores a byte of an update that found the line at version `v` and an unreadable state. */
  ghost predicate StoresAtClock(s: Memory, steps: seq<Step>, i: nat, v: nat)
    requires Runs(s, steps)
  {
    && i < |steps| && steps[i].StoreByte?
    && StoringSection(s, steps, i).kind.LinUpdate? && StoringSection(s, steps, i).target.version == v
  }

  /** Under the linearizable protocol, agreeing even samples hide a store exactly when such an update made one. */
  lemma HiddenIffUpdated(
    machine: nat, machines: nat, threads: nat, value: seq<Byte>, before: seq<Step>, between: seq<Step>)
    requires machine < machines && Runs(Initial(Linearizable(machines), machine, threads, value), before)
    requires Runs(Final(Initial(Linearizable(machines), machine, threads, value), before), between)
    requires var s := Final(Initial(Linearizable(machines), machine, threads, value), before);
             s.version % 2 == 0 && Word(Final(s, between)) == Word(s)
    ensures var s := Final(Initial(Linearizable(machines), machine, threads, value), before);
            NoStore(between) <==> forall i: nat :: !StoresAtClock(s, between, i, s.version)
  {
    var s0 := Initial(Linearizable(machines), machine, threads, value);
    RunExclusive(s0, before);
    var s := Final(s0, before);
    forall i: nat | i < |between| && between[i].StoreByte? ensures StoresAtClock(s, between, i, s.version) {
      EqualVersionsHideOnlyUpdates(s, between, i);
    }
  }

  // ----- The sequentially consistent protocol -----

  lemma {:induction false} NoStoreKeepsValue(s: Memory, steps: seq<Step>)
    requires Runs(s, steps) && NoStore(steps)
    ensures Final(s, steps).value == s.value
    decreases |steps|
  {
    if steps == [] {
    } else {
      NoStoreKeepsValue(Next(s, steps[0]), steps[1..]);
    }
  }

  /**
   The reader's guarantee. Take any reachable state and any run of the other threads from there: if the
   samples before and after agree and are even, not one value byte was stored in between.
   */
  lemma AgreeingSamplesSeeOneValue(
    machine: nat, threads: nat, value: seq<Byte>, before: seq<Step>, between: seq<Step>)
    requires Runs(Initial(Sequential, machine, threads, value), before)
    requires Runs(Final(Initial(Sequential, machine, threads, value), before), between)
    requires var s := Final(Initial(Sequential, machine, threads, value), before);
             s.version % 2 == 0 && Word(Final(s, between)) == Word(s)
    ensures NoStore(between)
    ensures var s := Final(Initial(Sequential, machine, threads, value), before);
            Final(s, between).value == s.value
  {
    var s0 := Initial(Sequential, machine, threads, value);
    RunExclusive(s0, before);
    var s := Final(s0, before);
    EvenIsBase(s);
    RunExclusive(s, between);
    EvenIsBase(Final(s, between));
    forall i | 0 <= i < |between| ensures !between[i].StoreByte? {
      if between[i].StoreByte? {
        var at, u, rest := StoreEnds(s, between, i);
        SectionGrows(Sequential, machine, at.base, at.was, StoringSection(s, between, i));
        assert false;
      }
    }
    NoStoreKeepsValue(s, between);
  }

  // ----- The linearizable protocol: which first samples are enough -----

  /** The line moved past version `v` and cid `c`, and will not come back. */
  ghost predicate Past(machines: nat, v: nat, c: nat, clock: Timestamp, state: State) {
    || clock.version > v
    || (clock.version == v && !IsWrite(state) && (clock.cid > c || clock.cid < machines <= c))
  }

  /**
   A copy that no update at its own clock can reach: readable, or writing with a session id that no invalidation of
   the write can carry, because the machine's own id covers it or because it is no machine's.
   */
  predicate Steady(machine: nat, machines: nat, clock: Timestamp, state: State) {
    state.Valid? || (IsWrite(state) && (clock.cid <= machine || clock.cid >= machines))
  }

  ghost predicate SteadyOrPast(machine: nat, machines: nat, v: nat, c: nat, clock: Timestamp, state: State) {
    || (clock == Timestamp(v, c) && Steady(machine, machines, clock, state))
    || Past(machines, v, c, clock, state)
  }

  lemma SectionKeepsPast(
    machine: nat, machines: nat, v: nat, c: nat, clock: Timestamp, state: State, section: Section)
    requires clock.version % 2 == 0 && machine < machines
    requires Legal(Linearizable(machines), machine, clock, state, section)
    requires SteadyOrPast(machine, machines, v, c, clock, state)
    ensures SteadyOrPast(machine, machines, v, c, section.target, section.state)
    ensures Past(machines, v, c, clock, state) || section.kind.LinPut? || section.kind.LinUpdate?
            ==> Past(machines, v, c, section.target, section.state)
  {
  }

  lemma {:induction false} RunKeepsPast(s: Memory, steps: seq<Step>, v: nat, c: nat)
    requires Exclusive(s) && s.protocol.Linearizable? && Runs(s, steps)
    requires SteadyOrPast(s.machine, s.protocol.machines, v, c, s.base, s.was)
    ensures var n, u := s.protocol.machines, Final(s, steps);
            && SteadyOrPast(s.machine, n, v, c, u.base, u.was)
            && (Past(n, v, c, s.base, s.was) ==> Past(n, v, c, u.base, u.was))
    decreases |steps|
  {
    if steps == [] {
    } else {
      var u := Next(s, steps[0]);
      StepExclusive(s, steps[0]);
      if steps[0].StoreVersion? {
        var section := Section(s.stages[steps[0].t].section.kind, u.base, u.was);
        SectionKeepsPast(s.machine, s.protocol.machines, v, c, s.base, s.was, section);
      }
      RunKeepsPast(u, steps[1..], v, c);
    }
  }

  /** From a steady copy, agreeing even samples do rule out a store. */
  lemma SteadySamplesSeeOneValue(s: Memory, steps: seq<Step>)
    requires Exclusive(s) && s.protocol.Linearizable? && Steady(s.machine, s.protocol.machines, Word(s), s.state)
    requires Runs(s, steps) && s.version % 2 == 0 && Word(Final(s, steps)) == Word(s)
    ensures NoStore(steps)
  {
    EvenIsBase(s);
    forall i | 0 <= i < |steps| ensures !steps[i].StoreByte? {
      if steps[i].StoreByte? {
        var at, u, rest := StoreEnds(s, steps, i);
        RunKeepsPast(s, steps[..i], s.version, s.cid);
        var section := StoringSection(s, steps, i);
        SectionKeepsPast(s.machine, s.protocol.machines, s.version, s.cid, at.base, at.was, section);
        RunKeepsPast(u, rest, s.version, s.cid);
        EvenIsBase(Final(s, steps));
        assert false;
      }
    }
  }

  // ----- Building runs -----

  ghost predicate Leads(s: Memory, steps: seq<Step>, u: Memory) {
    Runs(s, steps) && Final(s, steps) == u
  }

  lemma {:induction false} LeadsThen(s: Memory, first: seq<Step>, u: Memory, rest: seq<Step>, w: Memory)
    requires Leads(s, first, u) && Leads(u, rest, w)
    ensures Leads(s, first + rest, w)
    decreases |first|
  {
    if first == [] {
      assert first + rest == rest;
    } else {
      LeadsThen(Next(s, first[0]), first[1..], u, rest, w);
      assert (first + rest)[0] == first[0] && (first + rest)[1..] == first[1..] + rest;
    }
  }

  lemma Extend(s: Memory, steps: seq<Step>, u: Memory, step: Step)
    requires Leads(s, steps, u) && Enabled(u, step)
    ensures Leads(s, steps + [step], Next(u, step))
  {
    assert [step][1..] == [];
    LeadsThen(s, steps, u, [step], Next(u, step));
  }

  /** The rest of a section that stores no byte, up to its version store. */
  lemma FinishQuietly(u: Memory, t: nat, section: Section) returns (steps: seq<Step>, w: Memory)
    requires t < |u.stages| && u.stages[t] == Busy(section)
    ensures steps == [StoreState(t), StoreCid(t), StoreVersion(t)]
    ensures Leads(u, steps, w) && w.stages == u.stages[t := Releasing]
    ensures w == u.(version := section.target.version, cid := section.target.cid, state := section.state,
                    stages := w.stages, base := section.target, was := section.state)
  {
    var a := Next(u, StoreState(t));
    var b := Next(a, StoreCid(t));
    Extend(u, [], u, StoreState(t));
    Extend(u, [StoreState(t)], a, StoreCid(t));
    Extend(u, [StoreState(t)] + [StoreCid(t)], b, StoreVersion(t));
    steps, w := [StoreState(t)] + [StoreCid(t)] + [StoreVersion(t)], Next(b, StoreVersion(t));
  }

  // ----- Samples loaded in two parts -----

  /**
   The comparison also needs each sample to be one 8-byte load. If cid and version are loaded apart, an update of
   the sequentially consistent protocol with the same version and a larger cid stores a byte unseen: the cid is
   loaded before it changes and the version after it is even again, and both match the first sample.
   */
  lemma SplitSampleMissesStore(s: Memory, t: nat, newer: Timestamp, b: Byte)
    requires s.protocol.Sequential? && !s.lock && t < |s.stages| && s.stages[t].Idle? && |s.value| > 0
    requires s.version % 2 == 0 && newer.version == s.version > 0 && newer.cid > s.cid
    ensures var first := [Acquire(t), Bump(t), Decide(t, Section(ScUpdate, newer, s.state)), StoreByte(t, 0, b)];
            var rest := [StoreState(t), StoreCid(t), StoreVersion(t)];
            && Runs(s, first) && Runs(Final(s, first), rest)
            && Final(s, first).cid == s.cid
            && Final(Final(s, first), rest).version == s.version
            && Final(Final(s, first), rest).value == s.value[0 := b]
  {
    var section := Section(ScUpdate, newer, s.state);
    var s1 := Next(s, Acquire(t));
    var s2 := Next(s1, Bump(t));
    var s3 := Next(s2, Decide(t, section));
    var s4 := Next(s3, StoreByte(t, 0, b));
    Extend(s, [], s, Acquire(t));
    Extend(s, [Acquire(t)], s1, Bump(t));
    Extend(s, [Acquire(t)] + [Bump(t)], s2, Decide(t, section));
    Extend(s, [Acquire(t)] + [Bump(t)] + [Decide(t, section)], s3, StoreByte(t, 0, b));
    assert [Acquire(t)] + [Bump(t)] + [Decide(t, section)] + [StoreByte(t, 0, b)]
        == [Acquire(t), Bump(t), Decide(t, section), StoreByte(t, 0, b)];
    var rest, w := FinishQuietly(s4, t, section);
    assert rest == [StoreState(t), StoreCid(t), StoreVersion(t)];
  }
}
