/** The credit messages a machine forges in a round, counted by where they go and what they name. */
module CreditRound {
  import opened Credits
  import opened CreditSystem

  /** The message tells machine `to` that it has credits back on its channel to machine `from`. */
  predicate Tells(msg: CreditMsg, to: nat, vc: Vc, from: nat, machines: nat) {
    msg.to == to && Decode(msg.imm, machines) == (vc, from)
  }

  function Telling(msgs: seq<CreditMsg>, to: nat, vc: Vc, from: nat, machines: nat): nat {
    if msgs == [] then 0
    else Telling(msgs[..|msgs| - 1], to, vc, from, machines)
         + if Tells(msgs[|msgs| - 1], to, vc, from, machines) then 1 else 0
  }

  lemma {:induction false} TellingAppend(a: seq<CreditMsg>, b: seq<CreditMsg>, to: nat, vc: Vc, from: nat, n: nat)
    ensures Telling(a + b, to, vc, from, n) == Telling(a, to, vc, from, n) + Telling(b, to, vc, from, n)
    decreases |b|
  {
    if b == [] {
      assert a + b == a;
    } else {
      assert (a + b)[..|a + b| - 1] == a + b[..|b| - 1];
      TellingAppend(a, b[..|b| - 1], to, vc, from, n);
    }
  }

  lemma {:induction false} TellingRepeated(k: nat, msg: CreditMsg, to: nat, vc: Vc, from: nat, n: nat)
    ensures Telling(seq(k, _ => msg), to, vc, from, n) == if Tells(msg, to, vc, from, n) then k else 0
  {
    if k == 0 {
    } else {
      assert seq(k, _ => msg)[..k - 1] == seq(k - 1, _ => msg);
      TellingRepeated(k - 1, msg, to, vc, from, n);
    }
  }

  function Of(c: Counters, vc: Vc): nat {
    match vc
    case AckVc => c.acks
    case InvVc => c.invs
    case UpdVc => c.upds
  }

  lemma ForgedTells(r: nat, machine: nat, n: nat, counts: Counters, to: nat, vc: Vc, from: nat)
    requires machine < n
    ensures Telling(Forged(r, machine, n, counts.acks, counts.invs, counts.upds), to, vc, from, n)
            == if to == r && from == machine then Of(counts, vc) else 0
  {
    var acks := CreditMsg(r, ImmData(AckVc, machine, n));
    var invs := CreditMsg(r, ImmData(InvVc, machine, n));
    var upds := CreditMsg(r, ImmData(UpdVc, machine, n));
    var a, v, u := seq(counts.acks, _ => acks), seq(counts.invs, _ => invs), seq(counts.upds, _ => upds);
    assert Forged(r, machine, n, counts.acks, counts.invs, counts.upds) == a + v + u;
    TellingAppend(a + v, u, to, vc, from, n);
    TellingAppend(a, v, to, vc, from, n);
    TellingRepeated(counts.acks, acks, to, vc, from, n);
    TellingRepeated(counts.invs, invs, to, vc, from, n);
    TellingRepeated(counts.upds, upds, to, vc, from, n);
    assert Decode(acks.imm, n) == (AckVc, machine);
    assert Decode(invs.imm, n) == (InvVc, machine);
    assert Decode(upds.imm, n) == (UpdVc, machine);
  }

  /** Every message goes to the machine whose slots were freed and names the forging machine; none goes astray. */
  lemma {:induction false} BelowTells(
    machine: nat, seen: seq<Counters>, freed: seq<Counters>, n: nat, to: nat, vc: Vc, from: nat)
    requires n <= |seen| == |freed| && machine < |seen|
    ensures Telling(ForgedBelow(machine, seen, freed, n), to, vc, from, |seen|)
            == if to < n && from == machine then Messages(Of(seen[to], vc), Of(freed[to], vc)) else 0
  {
    if n == 0 {
    } else {
      var s, f := seen[n - 1], freed[n - 1];
      var counts := Counters(Messages(s.acks, f.acks), Messages(s.invs, f.invs), Messages(s.upds, f.upds));
      BelowTells(machine, seen, freed, n - 1, to, vc, from);
      ForgedTells(n - 1, machine, |seen|, counts, to, vc, from);
      TellingAppend(ForgedBelow(machine, seen, freed, n - 1),
                    Forged(n - 1, machine, |seen|, counts.acks, counts.invs, counts.upds), to, vc, from, |seen|);
    }
  }

  lemma {:induction false} AllTold(msgs: seq<CreditMsg>, k: nat, to: nat, vc: Vc, from: nat, n: nat)
    requires k < |msgs| && Tells(msgs[k], to, vc, from, n)
    ensures Telling(msgs, to, vc, from, n) > 0
  {
    if k == |msgs| - 1 {
    } else {
      AllTold(msgs[..|msgs| - 1], k, to, vc, from, n);
    }
  }

  /** The counters of a machine are those of the channels that end there. */
  ghost predicate Counts(s: System, machine: nat, seen: seq<Counters>, freed: seq<Counters>) {
    && Shape(s) && machine < s.machines == |seen| == |freed|
    && freed[machine] == Counters(0, 0, 0) && Below(seen[machine])
    && forall id :: id in s.channels && id.to == machine ==>
         Of(seen[id.from], id.vc) == s.channels[id].seen && Of(freed[id.from], id.vc) == s.channels[id].counted
  }

  lemma NothingOwn(seen: Counters, vc: Vc)
    requires Below(seen)
    ensures Messages(Of(seen, vc), 0) == 0
  {
  }

  /**
   The messages of a round are exactly the credits the system's forging step puts in flight: for every channel that
   ends at the machine, as many messages tell its sender, and there are no others.
   */
  lemma RoundForges(s: System, machine: nat, seen: seq<Counters>, freed: seq<Counters>, to: nat, vc: Vc, from: nat)
    requires Counts(s, machine, seen, freed)
    ensures var told := Telling(ForgedBelow(machine, seen, freed, |freed|), to, vc, from, s.machines);
            var id, t := Id(vc, to, from), Next(s, ForgeAll(machine));
            if id in s.channels && from == machine
            then id in t.channels && t.channels[id].returning == s.channels[id].returning + told
                 && t.channels[id].seen == Of(After(seen[to], freed[to]), vc)
            else told == 0 && (id in s.channels ==> id in t.channels && t.channels[id] == s.channels[id])
  {
    BelowTells(machine, seen, freed, |freed|, to, vc, from);
    NothingOwn(seen[machine], vc);
    assert Id(vc, to, from) in s.channels <==> IsId(s, Id(vc, to, from));
  }

  /** Whoever gets a message of the round can take it as credits of its own channel to the machine. */
  lemma MessageWelcome(s: System, machine: nat, seen: seq<Counters>, freed: seq<Counters>, k: nat)
    requires Counts(s, machine, seen, freed) && k < |ForgedBelow(machine, seen, freed, |freed|)|
    ensures var msg := ForgedBelow(machine, seen, freed, |freed|)[k];
            var (vc, from) := Decode(msg.imm, s.machines);
            && from == machine && Shape(Next(s, ForgeAll(machine)))
            && Enabled(Next(s, ForgeAll(machine)), ReceiveCredit(msg.to, Id(vc, msg.to, from)))
  {
    var msgs := ForgedBelow(machine, seen, freed, |freed|);
    var (vc, from) := Decode(msgs[k].imm, s.machines);
    AllTold(msgs, k, msgs[k].to, vc, from, s.machines);
    RoundForges(s, machine, seen, freed, msgs[k].to, vc, from);
    StepShape(s, ForgeAll(machine));
  }
}
