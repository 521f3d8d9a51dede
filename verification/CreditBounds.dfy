/** What conservation buys: receives always posted ahead of traffic, and credits that always come back. */
module CreditBounds {
  import opened Credits
  import opened CreditSystem

  /** In every run, each credit of each channel is in exactly one place. */
  lemma CreditsConserved(machines: nat, run: seq<Step>, id: Id)
    requires machines >= 2 && (InitialSafe(machines); Runs(Initial(machines), run))
    requires id.from < machines && id.to < machines && id.from != id.to
    ensures id in Reached(machines, run).channels
    ensures var c := Reached(machines, run).channels[id];
            c.credits + c.inFlight + c.held + c.counted + c.seen + PER_MESSAGE * c.returning == CREDITS
  {
    assert IsId(Reached(machines, run), id);
    assert Conserved(Reached(machines, run).channels[id]);
  }

  ghost function ReturnedAcks(s: System, m: nat): nat -> int {
    (to: nat) => if Id(AckVc, m, to) in s.channels then s.channels[Id(AckVc, m, to)].returned else 0
  }

  ghost function ReturnedBcasts(s: System, m: nat): nat -> int {
    (to: nat) =>
      if Id(InvVc, m, to) in s.channels && Id(UpdVc, m, to) in s.channels
      then s.channels[Id(InvVc, m, to)].returned + s.channels[Id(UpdVc, m, to)].returned
      else 0
  }

  /** All the credit messages ever sent to machine `m`, over every channel it sends on. */
  ghost function CreditMessages(s: System, m: nat): int {
    Sum(s.machines, ReturnedBcasts(s, m)) + Sum(s.machines, ReturnedAcks(s, m))
  }

  /** A channel returns at most one credit message for each full group of messages sent on it. */
  lemma ReturnedAtMost(c: Channel)
    requires Conserved(c)
    ensures PER_MESSAGE * c.returned <= c.sent && c.returned <= c.sent / PER_MESSAGE
  {
  }

  lemma BcastReturns(s: System, m: nat, to: nat)
    requires Safe(s) && m < s.machines && to < s.machines && to != m
    ensures ReturnedBcasts(s, m)(to) <= s.bcasts[m] / PER_MESSAGE
  {
    assert MachineOk(s, m);
    ReturnedAtMost(s.channels[Id(InvVc, m, to)]);
    ReturnedAtMost(s.channels[Id(UpdVc, m, to)]);
  }

  /**
   Every credit message finds a posted receive, although receives are posted per group of broadcasts of both
   kinds, and per group of acks to all machines, while credits come back per channel and machine.
   */
  lemma CreditReceivesSuffice(s: System, m: nat)
    requires Safe(s) && m < s.machines
    ensures CreditMessages(s, m) <= s.posted[m]
  {
    assert MachineOk(s, m);
    var each := (to: nat) => if to == m then 0 else s.bcasts[m] / PER_MESSAGE;
    forall to: nat | to < s.machines ensures ReturnedBcasts(s, m)(to) <= each(to) {
      if to != m { BcastReturns(s, m, to); }
    }
    SumAtMost(s.machines, ReturnedBcasts(s, m), each);
    SumOthers(s.machines, each, m, s.bcasts[m] / PER_MESSAGE);
    forall to: nat | to < s.machines
      ensures SentTo(s, AckVc, m)(to) >= 0 && ReturnedAcks(s, m)(to) <= SentTo(s, AckVc, m)(to) / PER_MESSAGE
    {
      if to != m { ReturnedAtMost(s.channels[Id(AckVc, m, to)]); }
    }
    SumOfFloors(s.machines, SentTo(s, AckVc, m), ReturnedAcks(s, m));
  }

  // ----- Coherence receives -----

  ghost function SentBy(s: System, m: nat): nat -> int {
    (from: nat) =>
      if Id(InvVc, from, m) in s.channels && Id(AckVc, from, m) in s.channels && Id(UpdVc, from, m) in s.channels
      then s.channels[Id(InvVc, from, m)].sent + s.channels[Id(AckVc, from, m)].sent
           + s.channels[Id(UpdVc, from, m)].sent
      else 0
  }

  ghost function ReturnedBy(s: System, m: nat): nat -> int {
    (from: nat) =>
      if Id(InvVc, from, m) in s.channels && Id(AckVc, from, m) in s.channels && Id(UpdVc, from, m) in s.channels
      then s.channels[Id(InvVc, from, m)].returned + s.channels[Id(AckVc, from, m)].returned
           + s.channels[Id(UpdVc, from, m)].returned
      else 0
  }

  /** Receives machine `m` has posted: every credit of every peer at first, then a group per credit message it sent. */
  ghost function CoherenceReceives(s: System, m: nat): int {
    (s.machines - 1) * (3 * CREDITS) + PER_MESSAGE * Sum(s.machines, ReturnedBy(s, m))
  }

  lemma {:induction false} SumAffine(n: nat, f: nat -> int, g: nat -> int, m: nat)
    requires forall i: nat :: i < n ==> f(i) <= (if i == m then 0 else 3 * CREDITS) + PER_MESSAGE * g(i)
    ensures Sum(n, f) <= (if m < n then (n - 1) * (3 * CREDITS) else n * (3 * CREDITS)) + PER_MESSAGE * Sum(n, g)
  {
    if n == 0 {
    } else {
      SumAffine(n - 1, f, g, m);
    }
  }

  /** No message ever reaches a machine, from any sender on any channel, without a receive posted for it. */
  lemma CoherenceReceivesSuffice(s: System, m: nat)
    requires Flowing(s) && m < s.machines
    ensures Sum(s.machines, SentBy(s, m)) <= CoherenceReceives(s, m)
  {
    forall from: nat | from < s.machines
      ensures SentBy(s, m)(from) <= (if from == m then 0 else 3 * CREDITS) + PER_MESSAGE * ReturnedBy(s, m)(from)
    {
      if from != m {
        assert Conserved(s.channels[Id(InvVc, from, m)]) && Conserved(s.channels[Id(AckVc, from, m)])
            && Conserved(s.channels[Id(UpdVc, from, m)]);
      }
    }
    SumAffine(s.machines, SentBy(s, m), ReturnedBy(s, m), m);
  }

  // ----- Holding buffers -----

  /** What a machine's buffers of invalidations to ack, and of last acks to answer, have room for. */
  const HOLDING: nat := 500

  ghost function HeldFrom(s: System, vc: Vc, m: nat): nat -> int {
    (from: nat) => if Id(vc, from, m) in s.channels then s.channels[Id(vc, from, m)].held else 0
  }

  /** Credits bound what waits at a receiver, so with up to nine machines its back pressure never has to act. */
  lemma HoldingFits(s: System, vc: Vc, m: nat)
    requires Flowing(s) && m < s.machines
    ensures Sum(s.machines, HeldFrom(s, vc, m)) <= (s.machines - 1) * CREDITS
    ensures s.machines <= 9 ==> Sum(s.machines, HeldFrom(s, vc, m)) < HOLDING
  {
    var each := (from: nat) => if from == m then 0 else CREDITS;
    forall from: nat | from < s.machines ensures HeldFrom(s, vc, m)(from) <= each(from) {
      if from != m { assert Conserved(s.channels[Id(vc, from, m)]); }
    }
    SumAtMost(s.machines, HeldFrom(s, vc, m), each);
    SumOthers(s.machines, each, m, CREDITS);
  }

  // ----- No deadlock -----

  /** A step other than a new write's broadcast that changes something. */
  ghost predicate Drains(s: System, step: Step)
    requires Shape(s) && Enabled(s, step)
  {
    !step.SendInv? && Next(s, step) != s
  }

  ghost predicate Drained(s: System)
    requires Shape(s)
  {
    forall step :: Enabled(s, step) ==> !Drains(s, step)
  }

  lemma ArrivalDrains(s: System, id: Id) returns (step: Step)
    requires Shape(s) && id in s.channels && s.channels[id].inFlight > 0
    ensures Enabled(s, step) && Drains(s, step)
  {
    step := match id.vc
      case InvVc => ReceiveInv(id.to, id.from, false)
      case AckVc => ReceiveAck(id.to, id.from, false)
      case UpdVc => ReceiveUpd(id.to, id.from);
    assert Next(s, step).channels[id].inFlight == s.channels[id].inFlight - 1;
  }

  lemma CreditDrains(s: System, id: Id)
    requires Shape(s) && id in s.channels && s.channels[id].returning > 0
    ensures Enabled(s, ReceiveCredit(id.from, id)) && Drains(s, ReceiveCredit(id.from, id))
  {
    assert Next(s, ReceiveCredit(id.from, id)).channels[id].returning == s.channels[id].returning - 1;
  }

  lemma UpdDrains(s: System, m: nat, acker: nat)
    requires Shape(s) && Enabled(s, SendUpd(m, acker))
    ensures Drains(s, SendUpd(m, acker))
  {
    assert Next(s, SendUpd(m, acker)).channels[Id(AckVc, acker, m)].held == s.channels[Id(AckVc, acker, m)].held - 1;
  }

  lemma AckDrains(s: System, m: nat, writer: nat)
    requires Shape(s) && Enabled(s, SendAck(m, writer))
    ensures Drains(s, SendAck(m, writer))
  {
    assert Next(s, SendAck(m, writer)).channels[Id(InvVc, writer, m)].held == s.channels[Id(InvVc, writer, m)].held - 1;
  }

  lemma NothingMoving(s: System, id: Id)
    requires Flowing(s) && Drained(s) && id in s.channels
    ensures s.channels[id].inFlight == 0 && s.channels[id].returning == 0
  {
    if s.channels[id].inFlight > 0 {
      var step := ArrivalDrains(s, id);
      assert false;
    }
    if s.channels[id].returning > 0 {
      CreditDrains(s, id);
      assert false;
    }
  }

  lemma NothingCounted(s: System, id: Id)
    requires Flowing(s) && Drained(s) && id in s.channels
    ensures s.channels[id].counted == 0
  {
    var step := ForgeAll(id.to);
    assert Enabled(s, step);
    assert Next(s, step).channels[id].counted == 0;
  }

  lemma FreeChannelHasCredit(s: System, id: Id)
    requires Flowing(s) && Drained(s) && id in s.channels && s.channels[id].held == 0
    ensures s.channels[id].credits > PER_MESSAGE
  {
    NothingMoving(s, id);
    NothingCounted(s, id);
  }

  lemma NoAckHeld(s: System, m: nat, acker: nat)
    requires Flowing(s) && Drained(s) && Id(AckVc, acker, m) in s.channels
    ensures s.channels[Id(AckVc, acker, m)].held == 0
  {
    var id := Id(AckVc, acker, m);
    if s.channels[id].held > 0 {
      forall to: nat | to < s.machines && to != m ensures s.channels[Id(UpdVc, m, to)].credits > 0 {
        FreeChannelHasCredit(s, Id(UpdVc, m, to));
      }
      UpdDrains(s, m, acker);
      assert false;
    }
  }

  lemma NoInvHeld(s: System, m: nat, writer: nat)
    requires Flowing(s) && Drained(s) && Id(InvVc, writer, m) in s.channels
    ensures s.channels[Id(InvVc, writer, m)].held == 0
  {
    var id := Id(InvVc, writer, m);
    if s.channels[id].held > 0 {
      NoAckHeld(s, writer, m);
      FreeChannelHasCredit(s, Id(AckVc, m, writer));
      AckDrains(s, m, writer);
      assert false;
    }
  }

  /**
   Flow control cannot deadlock: when nothing but a new write is left to do, every channel holds more than a
   credit message's worth of credits, so every machine can broadcast.
   */
  lemma DrainedHasCredits(s: System, id: Id)
    requires Flowing(s) && Drained(s) && id in s.channels
    ensures s.channels[id].credits > PER_MESSAGE && s.channels[id].held == 0
    ensures Enabled(s, SendInv(id.from))
  {
    match id.vc {
      case InvVc => NoInvHeld(s, id.to, id.from);
      case AckVc => NoAckHeld(s, id.to, id.from);
      case UpdVc =>
    }
    FreeChannelHasCredit(s, id);
    forall to: nat | to < s.machines && to != id.from ensures s.channels[Id(InvVc, id.from, to)].credits > 0 {
      NoInvHeld(s, to, id.from);
      FreeChannelHasCredit(s, Id(InvVc, id.from, to));
    }
  }
}
