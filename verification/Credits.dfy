/**
 Credit-based flow control of the linearizable protocol: three virtual channels between every two
 machines, credits returned in batches, and receives posted ahead of the traffic they take.
 */
module Credits {

  const CREDITS: nat := 60
  const PER_MESSAGE: nat := 30

  datatype Vc = AckVc | InvVc | UpdVc

  // ----- Naming the channel in a credit message -----

  function ImmData(vc: Vc, machine: nat, machines: nat): nat {
    match vc
    case AckVc => machine
    case InvVc => machine + machines
    case UpdVc => machine + 2 * machines
  }

  function Decode(imm: nat, machines: nat): (r: (Vc, nat))
    ensures forall vc, machine: nat ::
              machine < machines && imm == ImmData(vc, machine, machines) ==> r == (vc, machine)
    ensures r.0.AckVc? <==> imm < machines
    ensures r.0.UpdVc? <==> imm >= 2 * machines
  {
    if imm >= 2 * machines then (UpdVc, imm - 2 * machines)
    else if imm >= machines then (InvVc, imm - machines)
    else (AckVc, imm)
  }

  // ----- Turning freed buffer slots into credit messages -----

  datatype CreditMsg = CreditMsg(to: nat, imm: nat)

  /** How many of the first `i` freed slots belong to the channel: acks come first, then invs, then upds. */
  function Share(i: nat, acks: nat, invs: nat, vc: Vc): nat {
    match vc
    case AckVc => if i <= acks then i else acks
    case InvVc => if i <= acks then 0 else if i <= acks + invs then i - acks else invs
    case UpdVc => if i <= acks + invs then 0 else i - acks - invs
  }

  /** The `seen` counters of one channel after counting `n` more slots, and the credit messages that caused. */
  function Seen(seen: nat, n: nat): nat {
    (seen + n) % PER_MESSAGE
  }

  function Messages(seen: nat, n: nat): nat {
    (seen + n) / PER_MESSAGE
  }

  /** The credit messages for one machine: so many for its acks, then for its invalidations, then for its updates. */
  function Forged(to: nat, machine: nat, machines: nat, acks: nat, invs: nat, upds: nat): seq<CreditMsg> {
    seq(acks, _ => CreditMsg(to, ImmData(AckVc, machine, machines)))
    + seq(invs, _ => CreditMsg(to, ImmData(InvVc, machine, machines)))
    + seq(upds, _ => CreditMsg(to, ImmData(UpdVc, machine, machines)))
  }

  lemma ForgedNext(to: nat, machine: nat, machines: nat, acks: nat, invs: nat, upds: nat)
    ensures Forged(to, machine, machines, acks + 1, 0, 0)
            == Forged(to, machine, machines, acks, 0, 0) + [CreditMsg(to, machine)]
    ensures Forged(to, machine, machines, acks, invs + 1, 0)
            == Forged(to, machine, machines, acks, invs, 0) + [CreditMsg(to, machine + machines)]
    ensures Forged(to, machine, machines, acks, invs, upds + 1)
            == Forged(to, machine, machines, acks, invs, upds) + [CreditMsg(to, machine + 2 * machines)]
  {
  }

  /** One more message: the counter goes up, or wraps with one more credit message. */
  lemma CountOne(seen: nat, n: nat)
    requires seen < PER_MESSAGE
    ensures Seen(seen, n) < PER_MESSAGE && Messages(seen, 0) == 0
    ensures if Seen(seen, n) + 1 == PER_MESSAGE
            then Seen(seen, n + 1) == 0 && Messages(seen, n + 1) == Messages(seen, n) + 1
            else Seen(seen, n + 1) == Seen(seen, n) + 1 && Messages(seen, n + 1) == Messages(seen, n)
  {
  }

  function Bump(seen: nat): nat {
    if seen + 1 == PER_MESSAGE then 0 else seen + 1
  }

  /** Counts slot `i`; `imm` names the channel of the credit message it completes, or is -1. */
  method CountSlot(a: nat, v: nat, u: nat, i: nat, acks: nat, invs: nat, machine: nat, machines: nat)
    returns (a': nat, v': nat, u': nat, imm: int)
    requires a < PER_MESSAGE && v < PER_MESSAGE && u < PER_MESSAGE
    ensures a' == (if i < acks then Bump(a) else a)
    ensures v' == (if acks <= i < acks + invs then Bump(v) else v)
    ensures u' == (if acks + invs <= i then Bump(u) else u)
    ensures imm == if i < acks then (if a' == 0 then machine else -1)
                   else if i < acks + invs then (if v' == 0 then machine + machines else -1)
                   else (if u' == 0 then machine + 2 * machines else -1)
  {
    a', v', u', imm := a, v, u, -1;
    if i < acks { a' := a + 1; } else if i < acks + invs { v' := v + 1; } else { u' := u + 1; }
    if a' == PER_MESSAGE || v' == PER_MESSAGE || u' == PER_MESSAGE {
      if i < acks {
        imm, a' := machine, 0;
      } else if i < acks + invs {
        imm, v' := machine + machines, 0;
      } else {
        imm, u' := machine + 2 * machines, 0;
      }
    }
  }

  /**
   The inner loop, for one machine: one credit message every PER_MESSAGE slots of a channel, with the remainder
   kept in the channel's counter. The three counters share one test for "a counter is full".
   */
  method ForgeForMachine(acksSeen: nat, invsSeen: nat, updsSeen: nat, acks: nat, invs: nat, upds: nat,
                         to: nat, machine: nat, machines: nat) returns (a: nat, v: nat, u: nat, msgs: seq<CreditMsg>)
    requires acksSeen < PER_MESSAGE && invsSeen < PER_MESSAGE && updsSeen < PER_MESSAGE
    ensures a == Seen(acksSeen, acks) && v == Seen(invsSeen, invs) && u == Seen(updsSeen, upds)
    ensures msgs == Forged(to, machine, machines,
                           Messages(acksSeen, acks), Messages(invsSeen, invs), Messages(updsSeen, upds))
  {
    a, v, u, msgs := acksSeen, invsSeen, updsSeen, [];
    var i := 0;
    while i < acks + invs + upds
      invariant 0 <= i <= acks + invs + upds
      invariant a == Seen(acksSeen, Share(i, acks, invs, AckVc)) && v == Seen(invsSeen, Share(i, acks, invs, InvVc))
      invariant u == Seen(updsSeen, Share(i, acks, invs, UpdVc))
      invariant msgs == Forged(to, machine, machines, Messages(acksSeen, Share(i, acks, invs, AckVc)),
                               Messages(invsSeen, Share(i, acks, invs, InvVc)),
                               Messages(updsSeen, Share(i, acks, invs, UpdVc)))
    {
      ghost var x, y, z := Share(i, acks, invs, AckVc), Share(i, acks, invs, InvVc), Share(i, acks, invs, UpdVc);
      CountOne(acksSeen, x);
      CountOne(invsSeen, y);
      CountOne(updsSeen, z);
      ForgedNext(to, machine, machines, Messages(acksSeen, x), Messages(invsSeen, y), Messages(updsSeen, z));
      var imm;
      a, v, u, imm := CountSlot(a, v, u, i, acks, invs, machine, machines);
      msgs := msgs + if imm == -1 then [] else [CreditMsg(to, imm)];
      i := i + 1;
    }
  }

  /** A machine's three counters. */
  datatype Counters = Counters(acks: nat, invs: nat, upds: nat)

  predicate Below(c: Counters) {
    c.acks < PER_MESSAGE && c.invs < PER_MESSAGE && c.upds < PER_MESSAGE
  }

  function After(seen: Counters, freed: Counters): Counters {
    Counters(Seen(seen.acks, freed.acks), Seen(seen.invs, freed.invs), Seen(seen.upds, freed.upds))
  }

  /** All the credit messages of a round, for the machines below `n`. */
  function ForgedBelow(machine: nat, seen: seq<Counters>, freed: seq<Counters>, n: nat): seq<CreditMsg>
    requires n <= |seen| == |freed|
  {
    if n == 0 then [] else
      var s, f := seen[n - 1], freed[n - 1];
      ForgedBelow(machine, seen, freed, n - 1)
      + Forged(n - 1, machine, |seen|, Messages(s.acks, f.acks), Messages(s.invs, f.invs), Messages(s.upds, f.upds))
  }

  /** Counts the slots freed in this round for every machine and forges the credit messages. */
  method ForgeCredits(machine: nat, freed: seq<Counters>, seen: array<Counters>) returns (msgs: seq<CreditMsg>)
    requires |freed| == seen.Length && forall r :: 0 <= r < seen.Length ==> Below(seen[r])
    modifies seen
    ensures forall r :: 0 <= r < seen.Length ==> seen[r] == After(old(seen[r]), freed[r]) && Below(seen[r])
    ensures msgs == ForgedBelow(machine, old(seen[..]), freed, |freed|)
  {
    msgs := [];
    ghost var before := seen[..];
    var rm := 0;
    while rm < seen.Length
      invariant 0 <= rm <= seen.Length
      invariant forall r :: 0 <= r < rm ==> seen[r] == After(before[r], freed[r]) && Below(seen[r])
      invariant forall r :: rm <= r < seen.Length ==> seen[r] == before[r]
      invariant msgs == ForgedBelow(machine, before, freed, rm)
    {
      var s, f := seen[rm], freed[rm];
      var a, v, u, forged := ForgeForMachine(s.acks, s.invs, s.upds, f.acks, f.invs, f.upds, rm, machine, seen.Length);
      seen[rm] := Counters(a, v, u);
      msgs := msgs + forged;
      rm := rm + 1;
    }
  }
}
