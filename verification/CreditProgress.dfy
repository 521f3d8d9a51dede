/** Draining always ends: a weight that every step but a new write's broadcast lowers. */
module CreditProgress {
  import opened Credits
  import opened CreditSystem
  import opened CreditBounds

  /** `a` for each message in flight, `b` for each one held, less for what is already on its way back. */
  ghost function Weight(a: nat, b: nat, c: Channel): nat {
    a * c.inFlight + b * c.held + 2 * c.counted + c.returning
  }

  lemma ArriveLighter(a: nat, b: nat, c: Channel, hold: bool)
    requires c.inFlight > 0 && a > b && a > 2
    ensures Weight(a, b, Arrive(c, hold)) < Weight(a, b, c)
  {
    var d := Arrive(c, hold);
    assert a * c.inFlight == a * (d.inFlight + 1) == a * d.inFlight + a;
    if hold { assert b * d.held == b * (c.held + 1) == b * c.held + b; }
  }

  lemma FreeWeight(a: nat, b: nat, c: Channel)
    requires c.held > 0
    ensures Weight(a, b, Free(c)) == Weight(a, b, c) - b + 2
  {
    assert b * c.held == b * (Free(c).held + 1) == b * Free(c).held + b;
  }

  lemma SendWeight(a: nat, b: nat, c: Channel)
    requires c.credits > 0
    ensures Weight(a, b, Send(c)) == Weight(a, b, c) + a
  {
    assert a * Send(c).inFlight == a * (c.inFlight + 1) == a * c.inFlight + a;
  }

  lemma ForgeLighter(a: nat, b: nat, c: Channel)
    requires Conserved(c)
    ensures Weight(a, b, Forge(c)) <= Weight(a, b, c)
    ensures Forge(c) != c ==> Weight(a, b, Forge(c)) < Weight(a, b, c)
  {
    assert Messages(c.seen, c.counted) <= c.counted;
  }

  // ----- The weight of the whole system -----

  /**
   Everything a write of `a` still costs at `b`: its invalidation, the ack that answers it and the update that
   answers the ack. An invalidation outweighs its ack, and an ack outweighs the whole broadcast it may cause.
   */
  ghost function Cells(s: System, a: nat): nat -> int {
    (b: nat) =>
      if Id(InvVc, a, b) in s.channels && Id(AckVc, b, a) in s.channels && Id(UpdVc, a, b) in s.channels
      then LoadOf(s, Id(InvVc, a, b)) + LoadOf(s, Id(AckVc, b, a)) + LoadOf(s, Id(UpdVc, a, b))
      else 0
  }

  ghost function Rows(s: System): nat -> int {
    (a: nat) => Sum(s.machines, Cells(s, a))
  }

  ghost function Total(s: System): int {
    Sum(s.machines, Rows(s))
  }

  lemma {:induction false} SumLess(n: nat, f: nat -> int, g: nat -> int, k: nat)
    requires k < n && f(k) < g(k)
    requires forall i: nat :: i < n ==> f(i) <= g(i)
    ensures Sum(n, f) < Sum(n, g)
  {
    if k == n - 1 { SumAtMost(n - 1, f, g); } else { SumLess(n - 1, f, g, k); }
  }

  lemma {:induction false} SumNonNegative(n: nat, f: nat -> int)
    requires forall i: nat :: i < n ==> f(i) >= 0
    ensures Sum(n, f) >= 0
  {
    if n == 0 {
    } else {
      SumNonNegative(n - 1, f);
    }
  }

  lemma TotalNonNegative(s: System)
    ensures Total(s) >= 0
  {
    forall a: nat | a < s.machines ensures Rows(s)(a) >= 0 { SumNonNegative(s.machines, Cells(s, a)); }
    SumNonNegative(s.machines, Rows(s));
  }

  lemma RowLighter(s: System, t: System, k: nat)
    requires t.machines == s.machines && k < s.machines && Rows(t)(k) < Rows(s)(k)
    requires forall a: nat :: a < s.machines ==> Rows(t)(a) <= Rows(s)(a)
    ensures Total(t) < Total(s)
  {
    SumLess(s.machines, Rows(t), Rows(s), k);
  }

  /** No cell got heavier and one got lighter. */
  lemma CellLighter(s: System, t: System, k: nat, j: nat)
    requires t.machines == s.machines && k < s.machines && j < s.machines && Cells(t, k)(j) < Cells(s, k)(j)
    requires forall a: nat, b: nat :: a < s.machines && b < s.machines ==> Cells(t, a)(b) <= Cells(s, a)(b)
    ensures Total(t) < Total(s)
  {
    forall a: nat | a < s.machines ensures Rows(t)(a) <= Rows(s)(a) {
      SumAtMost(s.machines, Cells(t, a), Cells(s, a));
    }
    SumLess(s.machines, Cells(t, k), Cells(s, k), j);
    RowLighter(s, t, k);
  }

  /** The two systems differ in the channels of one cell only, and there `t` is lighter. */
  lemma OneCell(s: System, t: System, a: nat, b: nat)
    requires Shape(s) && Shape(t) && t.machines == s.machines && a < s.machines && b < s.machines
    requires Cells(t, a)(b) < Cells(s, a)(b)
    requires forall id :: id in s.channels && id != Id(InvVc, a, b) && id != Id(AckVc, b, a) && id != Id(UpdVc, a, b)
               ==> t.channels[id] == s.channels[id]
    ensures Total(t) < Total(s)
  {
    CellLighter(s, t, a, b);
  }

  lemma ReceiveInvLighter(s: System, m: nat, from: nat, hold: bool)
    requires Shape(s) && Enabled(s, ReceiveInv(m, from, hold))
    ensures Total(Next(s, ReceiveInv(m, from, hold))) < Total(s)
  {
    ArriveLighter(3 * s.machines + 5, 3 * s.machines + 4, s.channels[Id(InvVc, from, m)], hold);
    StepShape(s, ReceiveInv(m, from, hold));
    OneCell(s, Next(s, ReceiveInv(m, from, hold)), from, m);
  }

  lemma ReceiveAckLighter(s: System, m: nat, from: nat, hold: bool)
    requires Shape(s) && Enabled(s, ReceiveAck(m, from, hold))
    ensures Total(Next(s, ReceiveAck(m, from, hold))) < Total(s)
  {
    ArriveLighter(3 * s.machines + 1, 3 * s.machines, s.channels[Id(AckVc, from, m)], hold);
    StepShape(s, ReceiveAck(m, from, hold));
    OneCell(s, Next(s, ReceiveAck(m, from, hold)), m, from);
  }

  lemma ReceiveUpdLighter(s: System, m: nat, from: nat)
    requires Shape(s) && Enabled(s, ReceiveUpd(m, from))
    ensures Total(Next(s, ReceiveUpd(m, from))) < Total(s)
  {
    ArriveLighter(3, 0, s.channels[Id(UpdVc, from, m)], false);
    StepShape(s, ReceiveUpd(m, from));
    OneCell(s, Next(s, ReceiveUpd(m, from)), from, m);
  }

  lemma CreditLighter(s: System, m: nat, id: Id)
    requires Shape(s) && Enabled(s, ReceiveCredit(m, id))
    ensures Total(Next(s, ReceiveCredit(m, id))) < Total(s)
  {
    var t := Next(s, ReceiveCredit(m, id));
    StepShape(s, ReceiveCredit(m, id));
    CreditedCell(s, t, id);
    if id.vc.AckVc? { OneCell(s, t, id.to, id.from); } else { OneCell(s, t, id.from, id.to); }
  }

  lemma CreditedCell(s: System, t: System, id: Id)
    requires Shape(s) && id in s.channels && s.channels[id].returning > 0
    requires t.machines == s.machines && t.channels == s.channels[id := Credit(s.channels[id])]
    ensures var a, b := if id.vc.AckVc? then id.to else id.from, if id.vc.AckVc? then id.from else id.to;
            Cells(t, a)(b) < Cells(s, a)(b)
  {
  }

  /** The ack is as heavy as what is left of the invalidation it answers, less one. */
  lemma AckedCell(s: System, t: System, a: nat, b: nat)
    requires Shape(s) && Shape(t) && t.machines == s.machines && a < s.machines && b < s.machines && a != b
    requires s.channels[Id(InvVc, a, b)].held > 0 && s.channels[Id(AckVc, b, a)].credits > 0
    requires t.channels[Id(InvVc, a, b)] == Free(s.channels[Id(InvVc, a, b)])
    requires t.channels[Id(AckVc, b, a)] == Send(s.channels[Id(AckVc, b, a)])
    requires t.channels[Id(UpdVc, a, b)] == s.channels[Id(UpdVc, a, b)]
    ensures Cells(t, a)(b) == Cells(s, a)(b) - 1
  {
    var n := 3 * s.machines;
    FreeWeight(n + 5, n + 4, s.channels[Id(InvVc, a, b)]);
    SendWeight(n + 1, n, s.channels[Id(AckVc, b, a)]);
  }

  lemma AckLighter(s: System, m: nat, writer: nat)
    requires Shape(s) && Enabled(s, SendAck(m, writer))
    ensures Total(Next(s, SendAck(m, writer))) < Total(s)
  {
    StepShape(s, SendAck(m, writer));
    AckedCell(s, Next(s, SendAck(m, writer)), writer, m);
    OneCell(s, Next(s, SendAck(m, writer)), writer, m);
  }

  lemma {:induction false} SumSplit(n: nat, f: nat -> int, g: nat -> int, m: nat, d: int, k: nat, e: int)
    requires forall i: nat :: i < n ==> g(i) == f(i) + (if i == m then 0 else d) + if i == k then e else 0
    ensures Sum(n, g) == Sum(n, f) + (if m < n then (n - 1) * d else n * d) + if k < n then e else 0
  {
    if n == 0 {
    } else {
      SumSplit(n - 1, f, g, m, d, k, e);
      assert n * d == (n - 1) * d + d;
      assert n > 1 ==> (n - 1) * d == (n - 2) * d + d;
    }
  }

  lemma UpdCell(s: System, t: System, m: nat, acker: nat, b: nat)
    requires Shape(s) && Shape(t) && t.machines == s.machines && m < s.machines && b < s.machines && b != m
    requires t.channels[Id(InvVc, m, b)] == s.channels[Id(InvVc, m, b)]
    requires s.channels[Id(UpdVc, m, b)].credits > 0
    requires t.channels[Id(UpdVc, m, b)] == Send(s.channels[Id(UpdVc, m, b)])
    requires b == acker ==> s.channels[Id(AckVc, b, m)].held > 0
    requires t.channels[Id(AckVc, b, m)]
             == if b == acker then Free(s.channels[Id(AckVc, b, m)]) else s.channels[Id(AckVc, b, m)]
    ensures Cells(t, m)(b) == Cells(s, m)(b) + 3 + if b == acker then 2 - 3 * s.machines else 0
  {
    SendWeight(3, 0, s.channels[Id(UpdVc, m, b)]);
    if b == acker { FreeWeight(3 * s.machines + 1, 3 * s.machines, s.channels[Id(AckVc, b, m)]); }
  }

  lemma UpdRow(s: System, t: System, m: nat, acker: nat)
    requires t.machines == s.machines && m < s.machines && acker < s.machines
    requires forall b: nat :: b < s.machines ==>
               Cells(t, m)(b) == Cells(s, m)(b) + (if b == m then 0 else 3)
                                 + if b == acker then 2 - 3 * s.machines else 0
    ensures Rows(t)(m) < Rows(s)(m)
  {
    SumSplit(s.machines, Cells(s, m), Cells(t, m), m, 3, acker, 2 - 3 * s.machines);
  }

  lemma SameRow(s: System, t: System, a: nat)
    requires Shape(s) && Shape(t) && t.machines == s.machines && a < s.machines
    requires forall b: nat :: b < s.machines && b != a ==>
               && t.channels[Id(InvVc, a, b)] == s.channels[Id(InvVc, a, b)]
               && t.channels[Id(AckVc, b, a)] == s.channels[Id(AckVc, b, a)]
               && t.channels[Id(UpdVc, a, b)] == s.channels[Id(UpdVc, a, b)]
    ensures Rows(t)(a) == Rows(s)(a)
  {
    SumShift(s.machines, Cells(s, a), Cells(t, a), 0, 0);
  }

  lemma UpdLighter(s: System, m: nat, acker: nat)
    requires Shape(s) && Enabled(s, SendUpd(m, acker))
    ensures Total(Next(s, SendUpd(m, acker))) < Total(s)
  {
    var t := Next(s, SendUpd(m, acker));
    StepShape(s, SendUpd(m, acker));
    forall b: nat | b < s.machines
      ensures Cells(t, m)(b) == Cells(s, m)(b) + (if b == m then 0 else 3)
                                + if b == acker then 2 - 3 * s.machines else 0
    {
      if b != m { UpdCell(s, t, m, acker, b); }
    }
    UpdRow(s, t, m, acker);
    forall a: nat | a < s.machines && a != m ensures Rows(t)(a) == Rows(s)(a) { SameRow(s, t, a); }
    RowLighter(s, t, m);
  }

  /** The three channels of a cell each got no heavier, and one got lighter if any changed. */
  lemma CellsCompare(s: System, t: System, a: nat, b: nat)
    requires t.machines == s.machines
    requires Id(InvVc, a, b) in s.channels && Id(AckVc, b, a) in s.channels && Id(UpdVc, a, b) in s.channels
    requires Id(InvVc, a, b) in t.channels && Id(AckVc, b, a) in t.channels && Id(UpdVc, a, b) in t.channels
    requires NoHeavier(s, t, Id(InvVc, a, b)) && NoHeavier(s, t, Id(AckVc, b, a)) && NoHeavier(s, t, Id(UpdVc, a, b))
    ensures Cells(t, a)(b) <= Cells(s, a)(b)
    ensures Changed(s, t, Id(InvVc, a, b)) || Changed(s, t, Id(AckVc, b, a)) || Changed(s, t, Id(UpdVc, a, b))
            ==> Cells(t, a)(b) < Cells(s, a)(b)
  {
  }

  ghost function LoadOf(s: System, id: Id): nat
    requires id in s.channels
  {
    match id.vc
    case InvVc => Weight(3 * s.machines + 5, 3 * s.machines + 4, s.channels[id])
    case AckVc => Weight(3 * s.machines + 1, 3 * s.machines, s.channels[id])
    case UpdVc => Weight(3, 0, s.channels[id])
  }

  predicate Changed(s: System, t: System, id: Id)
    requires id in s.channels && id in t.channels
  {
    t.channels[id] != s.channels[id]
  }

  ghost predicate NoHeavier(s: System, t: System, id: Id)
    requires id in s.channels && id in t.channels
  {
    LoadOf(t, id) <= LoadOf(s, id) && (Changed(s, t, id) ==> LoadOf(t, id) < LoadOf(s, id))
  }

  lemma ForgedChannel(s: System, m: nat, id: Id)
    requires Flowing(s) && m < s.machines && id in s.channels
    ensures id in Next(s, ForgeAll(m)).channels && NoHeavier(s, Next(s, ForgeAll(m)), id)
  {
    var n := 3 * s.machines;
    match id.vc
    case InvVc => ForgeLighter(n + 5, n + 4, s.channels[id]);
    case AckVc => ForgeLighter(n + 1, n, s.channels[id]);
    case UpdVc => ForgeLighter(3, 0, s.channels[id]);
  }

  lemma ForgedCell(s: System, m: nat, a: nat, b: nat)
    requires Flowing(s) && m < s.machines && a < s.machines && b < s.machines && a != b
    ensures Shape(Next(s, ForgeAll(m))) && Next(s, ForgeAll(m)).machines == s.machines
    ensures var t := Next(s, ForgeAll(m));
            && Cells(t, a)(b) <= Cells(s, a)(b)
            && (Changed(s, t, Id(InvVc, a, b)) || Changed(s, t, Id(AckVc, b, a)) || Changed(s, t, Id(UpdVc, a, b))
                ==> Cells(t, a)(b) < Cells(s, a)(b))
  {
    StepShape(s, ForgeAll(m));
    ForgedChannel(s, m, Id(InvVc, a, b));
    ForgedChannel(s, m, Id(AckVc, b, a));
    ForgedChannel(s, m, Id(UpdVc, a, b));
    CellsCompare(s, Next(s, ForgeAll(m)), a, b);
  }

  lemma ForgeAllLighter(s: System, m: nat)
    requires Flowing(s) && Enabled(s, ForgeAll(m)) && Drains(s, ForgeAll(m))
    ensures Total(Next(s, ForgeAll(m))) < Total(s)
  {
    var t := Next(s, ForgeAll(m));
    StepShape(s, ForgeAll(m));
    assert t.channels != s.channels;
    var id :| id in s.channels && t.channels[id] != s.channels[id];
    var a, b := if id.vc.AckVc? then id.to else id.from, if id.vc.AckVc? then id.from else id.to;
    forall i: nat, j: nat | i < s.machines && j < s.machines ensures Cells(t, i)(j) <= Cells(s, i)(j) {
      if i != j { ForgedCell(s, m, i, j); }
    }
    ForgedCell(s, m, a, b);
    CellLighter(s, t, a, b);
  }

  lemma DrainLighter(s: System, step: Step)
    requires Safe(s) && Enabled(s, step) && Drains(s, step)
    ensures Total(Next(s, step)) < Total(s)
  {
    match step {
      case SendUpd(m, acker) => UpdLighter(s, m, acker);
      case SendAck(m, writer) => AckLighter(s, m, writer);
      case ForgeAll(m) => ForgeAllLighter(s, m);
      case ReceiveCredit(m, id) => CreditLighter(s, m, id);
      case ReceiveInv(m, from, hold) => ReceiveInvLighter(s, m, from, hold);
      case ReceiveAck(m, from, hold) => ReceiveAckLighter(s, m, from, hold);
      case ReceiveUpd(m, from) => ReceiveUpdLighter(s, m, from);
    }
  }

  /** A run in which no machine starts a write. */
  ghost predicate DrainRun(s: System, steps: seq<Step>)
    requires Safe(s)
    decreases |steps|
  {
    steps == []
    || (Enabled(s, steps[0]) && Drains(s, steps[0]) && (StepSafe(s, steps[0]); DrainRun(Next(s, steps[0]), steps[1..])))
  }

  ghost function DrainEnd(s: System, steps: seq<Step>): (t: System)
    requires Safe(s) && DrainRun(s, steps)
    ensures Safe(t) && t.machines == s.machines
    decreases |steps|
  {
    if steps == [] then s else (StepSafe(s, steps[0]); DrainEnd(Next(s, steps[0]), steps[1..]))
  }

  /** However the machines interleave, draining takes a bounded number of steps. */
  lemma {:induction false} DrainBounded(s: System, steps: seq<Step>)
    requires Safe(s) && DrainRun(s, steps)
    ensures |steps| + Total(DrainEnd(s, steps)) <= Total(s)
    decreases |steps|
  {
    if steps == [] {
    } else {
      DrainLighter(s, steps[0]);
      StepSafe(s, steps[0]);
      DrainBounded(Next(s, steps[0]), steps[1..]);
    }
  }

  /**
   A sender out of credits always gets one back: from any reachable state, every schedule of the work already
   under way is finite, and where it can go no further every channel has credits again.
   */
  lemma CreditsComeBack(machines: nat, run: seq<Step>, steps: seq<Step>)
    requires machines >= 2 && (InitialSafe(machines); Runs(Initial(machines), run))
    requires DrainRun(Reached(machines, run), steps)
    ensures |steps| <= Total(Reached(machines, run))
    ensures Drained(DrainEnd(Reached(machines, run), steps)) ==>
              forall id :: id in DrainEnd(Reached(machines, run), steps).channels ==>
                             DrainEnd(Reached(machines, run), steps).channels[id].credits > PER_MESSAGE
  {
    var s := Reached(machines, run);
    var t := DrainEnd(s, steps);
    DrainBounded(s, steps);
    TotalNonNegative(t);
    if Drained(t) {
      forall id | id in t.channels ensures t.channels[id].credits > PER_MESSAGE { DrainedHasCredits(t, id); }
    }
  }
}
