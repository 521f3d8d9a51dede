/** Flow control over whole runs: every machine, every channel, and the receives posted for each. */
module CreditSystem {
  import opened Credits

  datatype Id = Id(vc: Vc, from: nat, to: nat)

  /**
   One virtual channel from a sender to a receiver. `credits` is the sender's; `held` counts messages whose
   buffer slot the receiver still needs, `counted` slots freed this round, `seen` slots counted towards the
   next credit message, and `returning` credit messages in flight. The last four are totals since the start.
   */
  datatype Channel = Channel(
    credits: nat, inFlight: nat, held: nat, counted: nat, seen: nat, returning: nat,
    sent: nat, arrived: nat, returned: nat, credited: nat)

  /** `bcasts` and `acks` count what each machine sent; `posted` is the credit receives it posted. */
  datatype System = System(
    machines: nat,
    channels: map<Id, Channel>,
    bcasts: seq<nat>,
    acks: seq<nat>,
    posted: seq<nat>)

  /** Every credit of a channel is in exactly one place, and the running totals agree with the counters. */
  ghost predicate Conserved(c: Channel) {
    && c.credits + c.inFlight + c.held + c.counted + c.seen + PER_MESSAGE * c.returning == CREDITS
    && c.seen < PER_MESSAGE
    && c.sent == c.inFlight + c.arrived
    && c.arrived == c.held + c.counted + c.seen + PER_MESSAGE * c.returned
    && c.returned == c.returning + c.credited
  }

  function Send(c: Channel): (r: Channel)
    requires c.credits > 0
    ensures Conserved(c) ==> Conserved(r)
  {
    c.(credits := c.credits - 1, inFlight := c.inFlight + 1, sent := c.sent + 1)
  }

  function Arrive(c: Channel, hold: bool): (r: Channel)
    requires c.inFlight > 0
    ensures Conserved(c) ==> Conserved(r)
  {
    var c' := c.(inFlight := c.inFlight - 1, arrived := c.arrived + 1);
    if hold then c'.(held := c.held + 1) else c'.(counted := c.counted + 1)
  }

  function Free(c: Channel): (r: Channel)
    requires c.held > 0
    ensures Conserved(c) ==> Conserved(r)
  {
    c.(held := c.held - 1, counted := c.counted + 1)
  }

  function Forge(c: Channel): (r: Channel)
    ensures Conserved(c) ==> Conserved(r)
  {
    c.(counted := 0, seen := Seen(c.seen, c.counted),
       returning := c.returning + Messages(c.seen, c.counted), returned := c.returned + Messages(c.seen, c.counted))
  }

  function Credit(c: Channel): (r: Channel)
    requires c.returning > 0
    ensures Conserved(c) ==> Conserved(r)
  {
    c.(returning := c.returning - 1, credits := c.credits + PER_MESSAGE, credited := c.credited + 1)
  }

  const FRESH := Channel(CREDITS, 0, 0, 0, 0, 0, 0, 0, 0, 0)

  function Ids(machines: nat): (r: set<Id>)
    ensures forall id :: id in r <==> id.from < machines && id.to < machines && id.from != id.to
  {
    set vc: Vc, from: nat, to: nat | 0 <= from < machines && 0 <= to < machines && from != to :: Id(vc, from, to)
  }

  function Initial(machines: nat): System {
    System(machines,
           map id | id in Ids(machines) :: FRESH,
           seq(machines, _ => 0), seq(machines, _ => 0), seq(machines, _ => 0))
  }

  predicate IsId(s: System, id: Id) {
    id.from < s.machines && id.to < s.machines && id.from != id.to
  }

  ghost predicate Shape(s: System) {
    && s.machines >= 2
    && (forall id :: id in s.channels <==> IsId(s, id))
    && |s.bcasts| == |s.acks| == |s.posted| == s.machines
  }

  /** `succeeded` marks an invalidation that waits to be acked, `last` an ack that waits to be answered. */
  datatype Step =
    | SendInv(m: nat)
    | SendUpd(m: nat, acker: nat)
    | SendAck(m: nat, writer: nat)
    | ReceiveInv(m: nat, from: nat, succeeded: bool)
    | ReceiveAck(m: nat, from: nat, last: bool)
    | ReceiveUpd(m: nat, from: nat)
    | ForgeAll(m: nat)
    | ReceiveCredit(m: nat, id: Id)

  ghost predicate CanBroadcast(s: System, m: nat, vc: Vc)
    requires Shape(s) && m < s.machines
  {
    forall to: nat :: to < s.machines && to != m ==> s.channels[Id(vc, m, to)].credits > 0
  }

  ghost predicate Enabled(s: System, step: Step)
    requires Shape(s)
  {
    && step.m < s.machines
    && match step
       case SendInv(m) => CanBroadcast(s, m, InvVc)
       case SendUpd(m, acker) =>
         IsId(s, Id(AckVc, acker, m)) && s.channels[Id(AckVc, acker, m)].held > 0 && CanBroadcast(s, m, UpdVc)
       case SendAck(m, writer) =>
         && IsId(s, Id(InvVc, writer, m)) && s.channels[Id(InvVc, writer, m)].held > 0
         && s.channels[Id(AckVc, m, writer)].credits > 0
       case ReceiveInv(m, from, _) => IsId(s, Id(InvVc, from, m)) && s.channels[Id(InvVc, from, m)].inFlight > 0
       case ReceiveAck(m, from, _) => IsId(s, Id(AckVc, from, m)) && s.channels[Id(AckVc, from, m)].inFlight > 0
       case ReceiveUpd(m, from) => IsId(s, Id(UpdVc, from, m)) && s.channels[Id(UpdVc, from, m)].inFlight > 0
       case ForgeAll(m) => true
       case ReceiveCredit(m, id) => IsId(s, id) && id.from == m && s.channels[id].returning > 0
  }

  /** A broadcast, with the credit receives it posts: one per other machine every PER_MESSAGE broadcasts. */
  ghost function Broadcast(s: System, m: nat, vc: Vc): System
    requires Shape(s) && m < s.machines && CanBroadcast(s, m, vc)
  {
    var total := s.bcasts[m] + 1;
    s.(channels := map id | id in s.channels ::
                     if id.vc == vc && id.from == m then Send(s.channels[id]) else s.channels[id],
       bcasts := s.bcasts[m := total],
       posted := s.posted[m := s.posted[m] + if total % PER_MESSAGE == 0 then s.machines - 1 else 0])
  }

  /** Acks to all machines share one counter: one credit receive every PER_MESSAGE of them. */
  ghost function PostForAck(s: System, m: nat): System
    requires Shape(s) && m < s.machines
  {
    var total := s.acks[m] + 1;
    s.(acks := s.acks[m := total],
       posted := s.posted[m := s.posted[m] + if total % PER_MESSAGE == 0 then 1 else 0])
  }

  ghost function Next(s: System, step: Step): System
    requires Shape(s) && Enabled(s, step)
  {
    match step
    case SendInv(m) => Broadcast(s, m, InvVc)
    case SendUpd(m, acker) =>
      var t := Broadcast(s, m, UpdVc);
      t.(channels := t.channels[Id(AckVc, acker, m) := Free(s.channels[Id(AckVc, acker, m)])])
    case SendAck(m, writer) =>
      PostForAck(s, m).(channels := s.channels
        [Id(InvVc, writer, m) := Free(s.channels[Id(InvVc, writer, m)])]
        [Id(AckVc, m, writer) := Send(s.channels[Id(AckVc, m, writer)])])
    case ReceiveInv(m, from, succeeded) =>
      s.(channels := s.channels[Id(InvVc, from, m) := Arrive(s.channels[Id(InvVc, from, m)], succeeded)])
    case ReceiveAck(m, from, last) =>
      s.(channels := s.channels[Id(AckVc, from, m) := Arrive(s.channels[Id(AckVc, from, m)], last)])
    case ReceiveUpd(m, from) =>
      s.(channels := s.channels[Id(UpdVc, from, m) := Arrive(s.channels[Id(UpdVc, from, m)], false)])
    case ForgeAll(m) =>
      s.(channels := map id | id in s.channels :: if id.to == m then Forge(s.channels[id]) else s.channels[id])
    case ReceiveCredit(m, id) => s.(channels := s.channels[id := Credit(s.channels[id])])
  }

  // ----- Sums over machines -----

  ghost function Sum(n: nat, f: nat -> int): int {
    if n == 0 then 0 else Sum(n - 1, f) + f(n - 1)
  }

  lemma {:induction false} SumAtMost(n: nat, f: nat -> int, g: nat -> int)
    requires forall i: nat :: i < n ==> f(i) <= g(i)
    ensures Sum(n, f) <= Sum(n, g)
  {
    if n == 0 {
    } else {
      SumAtMost(n - 1, f, g);
    }
  }

  /** The two functions differ by `d` at `k` and nowhere else. */
  lemma {:induction false} SumShift(n: nat, f: nat -> int, g: nat -> int, k: nat, d: int)
    requires forall i: nat :: i < n ==> g(i) == f(i) + if i == k then d else 0
    ensures Sum(n, g) == Sum(n, f) + if k < n then d else 0
  {
    if n == 0 {
    } else {
      SumShift(n - 1, f, g, k, d);
    }
  }

  lemma {:induction false} SumOthers(n: nat, f: nat -> int, m: nat, d: int)
    requires forall i: nat :: i < n ==> f(i) == if i == m then 0 else d
    ensures Sum(n, f) == if m < n then (n - 1) * d else n * d
  {
    if n == 0 {
    } else {
      SumOthers(n - 1, f, m, d);
    }
  }

  /** A sum of floors is at most the floor of the sum. */
  lemma {:induction false} SumOfFloors(n: nat, f: nat -> int, g: nat -> int)
    requires forall i: nat :: i < n ==> f(i) >= 0 && g(i) <= f(i) / PER_MESSAGE
    ensures Sum(n, f) >= 0 && Sum(n, g) <= Sum(n, f) / PER_MESSAGE
  {
    if n == 0 {
    } else {
      SumOfFloors(n - 1, f, g);
    }
  }

  // ----- Conservation -----

  ghost function SentTo(s: System, vc: Vc, m: nat): nat -> int {
    (to: nat) => if Id(vc, m, to) in s.channels then s.channels[Id(vc, m, to)].sent else 0
  }

  /** What a machine's two send counters and its posted credit receives stand for. */
  ghost predicate MachineOk(s: System, m: nat)
    requires Shape(s) && m < s.machines
  {
    && (forall to: nat :: to < s.machines && to != m ==>
          s.channels[Id(InvVc, m, to)].sent + s.channels[Id(UpdVc, m, to)].sent == s.bcasts[m])
    && Sum(s.machines, SentTo(s, AckVc, m)) == s.acks[m]
    && s.posted[m] == (s.machines - 1) * (s.bcasts[m] / PER_MESSAGE) + s.acks[m] / PER_MESSAGE
  }

  /** Every channel is conserved; updates are never held. */
  ghost predicate Flowing(s: System) {
    && Shape(s)
    && (forall id :: id in s.channels ==> Conserved(s.channels[id]) && (id.vc.UpdVc? ==> s.channels[id].held == 0))
  }

  ghost predicate Safe(s: System) {
    Flowing(s) && forall m: nat :: m < s.machines ==> MachineOk(s, m)
  }

  lemma InitialMachine(s: System, m: nat)
    requires Shape(s) && m < s.machines && s.bcasts[m] == s.acks[m] == s.posted[m] == 0
    requires forall id :: id in s.channels ==> s.channels[id].sent == 0
    ensures MachineOk(s, m)
  {
    SumOthers(s.machines, SentTo(s, AckVc, m), m, 0);
  }

  lemma InitialFlowing(machines: nat)
    requires machines >= 2
    ensures Flowing(Initial(machines))
    ensures forall id :: id in Initial(machines).channels ==> Initial(machines).channels[id] == FRESH
  {
    var s := Initial(machines);
    assert forall id :: id in s.channels <==> IsId(s, id);
  }

  lemma InitialSafe(machines: nat)
    requires machines >= 2
    ensures Safe(Initial(machines))
  {
    var s := Initial(machines);
    InitialFlowing(machines);
    forall m: nat | m < machines ensures MachineOk(s, m) { InitialMachine(s, m); }
  }

  lemma StepShape(s: System, step: Step)
    requires Shape(s) && Enabled(s, step)
    ensures Shape(Next(s, step)) && Next(s, step).machines == s.machines
  {
  }

  lemma StepConserved(s: System, step: Step, id: Id)
    requires Flowing(s) && Enabled(s, step) && id in s.channels
    ensures Shape(Next(s, step)) && id in Next(s, step).channels
    ensures Conserved(Next(s, step).channels[id])
    ensures id.vc.UpdVc? ==> Next(s, step).channels[id].held == 0
  {
    StepShape(s, step);
  }

  // ----- Send counters -----

  lemma FloorStep(n: nat, k: nat)
    ensures k * ((n + 1) / PER_MESSAGE) == k * (n / PER_MESSAGE) + if (n + 1) % PER_MESSAGE == 0 then k else 0
  {
    if (n + 1) % PER_MESSAGE == 0 {
      assert (n + 1) / PER_MESSAGE == n / PER_MESSAGE + 1;
    } else {
      assert (n + 1) / PER_MESSAGE == n / PER_MESSAGE;
    }
  }

  /** The step left every `sent` counter of machine `m` alone. */
  lemma MachineUntouched(s: System, t: System, m: nat)
    requires Shape(s) && Shape(t) && t.machines == s.machines && m < s.machines && MachineOk(s, m)
    requires t.bcasts[m] == s.bcasts[m] && t.acks[m] == s.acks[m] && t.posted[m] == s.posted[m]
    requires forall id :: id in s.channels && id.from == m ==> t.channels[id].sent == s.channels[id].sent
    ensures MachineOk(t, m)
  {
    SumShift(s.machines, SentTo(s, AckVc, m), SentTo(t, AckVc, m), 0, 0);
  }

  lemma BroadcastCounted(s: System, t: System, m: nat, vc: Vc)
    requires Shape(s) && Shape(t) && t.machines == s.machines && m < s.machines && MachineOk(s, m) && !vc.AckVc?
    requires t.bcasts[m] == s.bcasts[m] + 1 && t.acks[m] == s.acks[m]
    requires t.posted[m] == s.posted[m] + if t.bcasts[m] % PER_MESSAGE == 0 then s.machines - 1 else 0
    requires forall id :: id in s.channels && id.from == m ==>
               t.channels[id].sent == s.channels[id].sent + if id.vc == vc then 1 else 0
    ensures MachineOk(t, m)
  {
    SumShift(s.machines, SentTo(s, AckVc, m), SentTo(t, AckVc, m), 0, 0);
    FloorStep(s.bcasts[m], s.machines - 1);
  }

  lemma AckCounted(s: System, t: System, m: nat, writer: nat)
    requires Shape(s) && Shape(t) && t.machines == s.machines && m < s.machines && MachineOk(s, m)
    requires writer < s.machines && writer != m
    requires t.bcasts[m] == s.bcasts[m] && t.acks[m] == s.acks[m] + 1
    requires t.posted[m] == s.posted[m] + if t.acks[m] % PER_MESSAGE == 0 then 1 else 0
    requires forall id :: id in s.channels && id.from == m ==>
               t.channels[id].sent == s.channels[id].sent + if id == Id(AckVc, m, writer) then 1 else 0
    ensures MachineOk(t, m)
  {
    SumShift(s.machines, SentTo(s, AckVc, m), SentTo(t, AckVc, m), writer, 1);
    FloorStep(s.acks[m], 1);
  }

  lemma StepCounted(s: System, step: Step, m: nat)
    requires Shape(s) && Enabled(s, step) && m < s.machines && MachineOk(s, m)
    ensures Shape(Next(s, step)) && Next(s, step).machines == s.machines && MachineOk(Next(s, step), m)
  {
    var t := Next(s, step);
    StepShape(s, step);
    if m == step.m && step.SendInv? {
      BroadcastCounted(s, t, m, InvVc);
    } else if m == step.m && step.SendUpd? {
      BroadcastCounted(s, t, m, UpdVc);
    } else if m == step.m && step.SendAck? {
      AckCounted(s, t, m, step.writer);
    } else {
      MachineUntouched(s, t, m);
    }
  }

  lemma StepSafe(s: System, step: Step)
    requires Safe(s) && Enabled(s, step)
    ensures Safe(Next(s, step)) && Next(s, step).machines == s.machines
  {
    var t := Next(s, step);
    StepShape(s, step);
    forall id | id in t.channels ensures Conserved(t.channels[id]) && (id.vc.UpdVc? ==> t.channels[id].held == 0) {
      StepConserved(s, step, id);
    }
    forall m: nat | m < t.machines ensures MachineOk(t, m) {
      assert MachineOk(s, m);
      StepCounted(s, step, m);
    }
  }

  ghost predicate Runs(s: System, steps: seq<Step>)
    requires Safe(s)
    decreases |steps|
  {
    steps == [] || (Enabled(s, steps[0]) && (StepSafe(s, steps[0]); Runs(Next(s, steps[0]), steps[1..])))
  }

  ghost function Final(s: System, steps: seq<Step>): (t: System)
    requires Safe(s) && Runs(s, steps)
    ensures Safe(t) && t.machines == s.machines
    decreases |steps|
  {
    if steps == [] then s else (StepSafe(s, steps[0]); Final(Next(s, steps[0]), steps[1..]))
  }

  ghost function Reached(machines: nat, steps: seq<Step>): (t: System)
    requires machines >= 2 && (InitialSafe(machines); Runs(Initial(machines), steps))
    ensures Safe(t) && t.machines == machines
  {
    InitialSafe(machines);
    Final(Initial(machines), steps)
  }
}
