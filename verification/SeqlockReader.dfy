/** The lock-free GET of the linearizable protocol, which looks at the state between its two samples. */
module SeqlockReader {
  import opened Clock
  import opened Lin
  import opened Seqlock
  import opened SeqlockSamples

  /** Invalidations of a readable line come with a larger version. */
  predicate MovesVersion(s: Memory, step: Step) {
    step.Decide? && step.section.kind.LinInv? && s.state.Valid? ==> step.section.target.version > s.version
  }

  /** All the invalidations of a run do. `LinCluster.PathProjects` proves it of every run of the whole system. */
  ghost predicate Unrivalled(s: Memory, steps: seq<Step>)
    requires Runs(s, steps)
    decreases |steps|
  {
    steps == [] || (MovesVersion(s, steps[0]) && Unrivalled(Next(s, steps[0]), steps[1..]))
  }

  /** The same, for an invalidation already under way. */
  ghost predicate PendingMoves(s: Memory) {
    forall t: nat :: t < |s.stages| && InSection(s.stages[t]) && s.stages[t].section.kind.LinInv? && s.was.Valid? ==>
      s.stages[t].section.target.version > s.base.version
  }

  lemma StepPendingMoves(s: Memory, step: Step)
    requires Exclusive(s) && Enabled(s, step) && PendingMoves(s) && MovesVersion(s, step)
    ensures PendingMoves(Next(s, step))
  {
    StepExclusive(s, step);
    if !step.Acquire? { assert OnlyOne(s, step.t) && SeenAt(s, s.stages[step.t]); }
  }

  lemma {:induction false} RunPendingMoves(s: Memory, steps: seq<Step>)
    requires Exclusive(s) && Runs(s, steps) && PendingMoves(s) && Unrivalled(s, steps)
    ensures PendingMoves(Final(s, steps))
    decreases |steps|
  {
    if steps == [] {
    } else {
      StepExclusive(s, steps[0]);
      StepPendingMoves(s, steps[0]);
      RunPendingMoves(Next(s, steps[0]), steps[1..]);
    }
  }

  /** Some thread has stored its section's last byte and its VALID state, and has yet to store the version. */
  ghost predicate Validating(s: Memory) {
    exists t: nat :: t < |s.stages| && (s.stages[t].StateStored? || s.stages[t].CidStored?)
                     && s.stages[t].section.state.Valid?
  }

  /** The line is past version `v`, or readable there, or about to be. */
  ghost predicate Settled(v: nat, s: Memory) {
    s.base.version > v || (s.base.version == v && PendingMoves(s) && (s.was.Valid? || Validating(s)))
  }

  lemma ValidatingIfChanged(s: Memory)
    requires Exclusive(s) && s.state.Valid? && !s.was.Valid?
    ensures Validating(s)
  {
    var t: nat :| t < |s.stages| && !s.stages[t].Idle?;
    assert SeenAt(s, s.stages[t]);
    assert s.stages[t].StateStored? || s.stages[t].CidStored?;
  }

  lemma ValidIsSettled(s: Memory)
    requires Exclusive(s) && PendingMoves(s) && s.state.Valid?
    ensures Settled(s.base.version, s)
  {
    if !s.was.Valid? { ValidatingIfChanged(s); }
  }

  lemma StepSettled(s: Memory, step: Step, v: nat)
    requires Exclusive(s) && s.protocol.Linearizable? && Enabled(s, step) && MovesVersion(s, step) && Settled(v, s)
    ensures Settled(v, Next(s, step))
  {
    var u := Next(s, step);
    StepExclusive(s, step);
    if !step.Acquire? { assert OnlyOne(s, step.t) && SeenAt(s, s.stages[step.t]); }
    if step.StoreVersion? { SectionGrows(s.protocol, s.machine, s.base, s.was, s.stages[step.t].section); }
    if s.base.version == v {
      StepPendingMoves(s, step);
      if Validating(s) {
        var t: nat :| t < |s.stages| && (s.stages[t].StateStored? || s.stages[t].CidStored?)
                      && s.stages[t].section.state.Valid?;
        assert OnlyOne(s, t) && SeenAt(s, s.stages[t]);
        assert !step.StoreVersion? ==> u.stages[t].StateStored? || u.stages[t].CidStored?;
      }
    }
  }

  lemma {:induction false} RunSettled(s: Memory, steps: seq<Step>, v: nat)
    requires Exclusive(s) && s.protocol.Linearizable? && Runs(s, steps) && Unrivalled(s, steps) && Settled(v, s)
    ensures Settled(v, Final(s, steps))
    decreases |steps|
  {
    if steps == [] {
    } else {
      StepExclusive(s, steps[0]);
      StepSettled(s, steps[0], v);
      RunSettled(Next(s, steps[0]), steps[1..], v);
    }
  }

  lemma {:induction false} UnrivalledPrefix(s: Memory, steps: seq<Step>, i: nat)
    requires Runs(s, steps) && Unrivalled(s, steps) && i <= |steps|
    ensures Runs(s, steps[..i]) && Unrivalled(s, steps[..i])
    decreases i
  {
    RunSplit(s, steps, i);
    if i == 0 {
    } else {
      UnrivalledPrefix(Next(s, steps[0]), steps[1..], i - 1);
      assert steps[..i][0] == steps[0] && steps[..i][1..] == steps[1..][..i - 1];
    }
  }

  /** What the line counts as: where a section under way is heading, or else where the last one left it. */
  ghost predicate Effective(s: Memory, clock: Timestamp, state: State) {
    && (forall t: nat :: t < |s.stages| && InSection(s.stages[t]) ==>
          s.stages[t].section.target == clock && s.stages[t].section.state == state)
    && ((forall t: nat :: t < |s.stages| ==> !InSection(s.stages[t])) ==> s.base == clock && s.was == state)
  }

  lemma AccessEffective(s: Memory, step: Step, clock: Timestamp, state: State)
    requires Exclusive(s) && Enabled(s, step) && !step.Decide? && Effective(s, clock, state)
    ensures Effective(Next(s, step), clock, state)
  {
    if !step.Acquire? { assert OnlyOne(s, step.t) && SeenAt(s, s.stages[step.t]); }
    var u := Next(s, step);
    assert InSection(u.stages[step.t]) ==> InSection(s.stages[step.t]);
    if InSection(s.stages[step.t]) && !step.StoreVersion? { assert InSection(u.stages[step.t]); }
  }

  /** A reader that loads VALID, and later finds its version even and unchanged, loaded it from a readable line. */
  lemma ReadPoint(s: Memory, steps: seq<Step>, v: nat, clock: Timestamp, state: State)
    requires Exclusive(s) && s.protocol.Linearizable? && PendingMoves(s) && s.state.Valid? && Effective(s, clock, state)
    requires Runs(s, steps) && v % 2 == 0 && Final(s, steps).version == v <= s.base.version
    ensures state.Valid? && clock.version == v
  {
    RunExclusive(s, steps);
    EvenIsBase(Final(s, steps));
    if t: nat :| t < |s.stages| && InSection(s.stages[t]) {
      assert OnlyOne(s, t) && SeenAt(s, s.stages[t]);
      var u, rest := SectionEnds(s, steps, t);
      RunExclusive(u, rest);
      SectionGrows(s.protocol, s.machine, s.base, s.was, s.stages[t].section);
    } else if s.lock {
      var t: nat :| t < |s.stages| && !s.stages[t].Idle?;
      assert SeenAt(s, s.stages[t]);
    }
  }

  /**
   What a lock-free GET of the linearizable protocol can rely on. It samples, finds the state VALID, and samples
   again: if the versions are equal and even, no byte was stored after it looked at the state, whatever the
   cids were. Bytes may have been stored before that, by the update that made the line readable.
   */
  lemma ValidReadSeesOneValue(s: Memory, first: seq<Step>, second: seq<Step>)
    requires Exclusive(s) && s.protocol.Linearizable? && PendingMoves(s) && s.version % 2 == 0
    requires Runs(s, first) && Unrivalled(s, first) && Final(s, first).state.Valid?
    requires Runs(Final(s, first), second) && Unrivalled(Final(s, first), second)
    requires Final(Final(s, first), second).version == s.version
    ensures NoStore(second)
    ensures Final(Final(s, first), second).value == Final(s, first).value
  {
    EvenIsBase(s);
    RunExclusive(s, first);
    RunPendingMoves(s, first);
    var seen := Final(s, first);
    ValidIsSettled(seen);
    NoStoreOnceSettled(seen, second, s.version);
    NoStoreKeepsValue(seen, second);
  }

  lemma NoStoreOnceSettled(s: Memory, steps: seq<Step>, v: nat)
    requires Exclusive(s) && s.protocol.Linearizable? && Runs(s, steps) && Unrivalled(s, steps)
    requires v <= s.base.version && Settled(s.base.version, s)
    requires v % 2 == 0 && Final(s, steps).version == v
    ensures NoStore(steps)
  {
    forall i | 0 <= i < |steps| ensures !steps[i].StoreByte? {
      if steps[i].StoreByte? {
        var at, u, rest := StoreEnds(s, steps, i);
        EvenIsBase(Final(s, steps));
        SectionGrows(s.protocol, s.machine, at.base, at.was, StoringSection(s, steps, i));
        RunSplit(s, steps, i);
        assert Enabled(at, steps[i]) by { assert steps[i..][0] == steps[i]; }
        UnrivalledPrefix(s, steps, i);
        RunSettled(s, steps[..i], s.base.version);
        SettledStoresMove(at, steps[i], s.base.version);
        assert false;
      }
    }
  }

  /** Where the line is settled, the only bytes stored are those of a put. */
  lemma SettledStoresMove(s: Memory, step: Step, v: nat)
    requires Exclusive(s) && s.protocol.Linearizable? && Enabled(s, step) && step.StoreByte? && Settled(v, s)
    ensures s.base.version > v || s.stages[step.t].section.kind.LinPut?
  {
    assert OnlyOne(s, step.t) && SeenAt(s, s.stages[step.t]);
  }
}
