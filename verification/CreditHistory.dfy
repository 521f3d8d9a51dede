/** What a channel's totals and its held slots stand for: the sends, receives and answers of the run so far. */
module CreditHistory {
  import opened Credits
  import opened CreditSystem

  /** The sender puts a message on the channel. */
  predicate Sends(step: Step, id: Id) {
    match id.vc
    case InvVc => step == SendInv(id.from)
    case AckVc => step == SendAck(id.from, id.to)
    case UpdVc => step.SendUpd? && step.m == id.from
  }

  predicate Receives(step: Step, id: Id) {
    match id.vc
    case InvVc => step.ReceiveInv? && step.m == id.to && step.from == id.from
    case AckVc => step.ReceiveAck? && step.m == id.to && step.from == id.from
    case UpdVc => step == ReceiveUpd(id.to, id.from)
  }

  /** The receiver keeps the slot: an invalidation that has to be acked, an ack that has to be followed by updates. */
  predicate Keeps(step: Step, id: Id) {
    match id.vc
    case InvVc => step == ReceiveInv(id.to, id.from, true)
    case AckVc => step == ReceiveAck(id.to, id.from, true)
    case UpdVc => false
  }

  /** The answer that lets such a slot go. */
  predicate LetsGo(step: Step, id: Id) {
    match id.vc
    case InvVc => step == SendAck(id.to, id.from)
    case AckVc => step == SendUpd(id.to, id.from)
    case UpdVc => false
  }

  datatype Role = Sending | Receiving | Keeping | LettingGo | Crediting

  /** What the step is to the channel. */
  predicate Plays(role: Role, step: Step, id: Id) {
    match role
    case Sending => Sends(step, id)
    case Receiving => Receives(step, id)
    case Keeping => Keeps(step, id)
    case LettingGo => LetsGo(step, id)
    case Crediting => step == ReceiveCredit(id.from, id)
  }

  /** How many steps of the run play the role. */
  function Tally(role: Role, steps: seq<Step>, id: Id): nat {
    if steps == [] then 0 else (if Plays(role, steps[0], id) then 1 else 0) + Tally(role, steps[1..], id)
  }

  /** The channel's totals and held slots have moved by these counts. */
  ghost predicate Moved(c: Channel, d: Channel, sent: nat, arrived: nat, kept: nat, freed: nat, credited: nat) {
    && d.sent == c.sent + sent && d.arrived == c.arrived + arrived && d.credited == c.credited + credited
    && d.held + freed == c.held + kept
  }

  ghost predicate Accounted(c: Channel, d: Channel, id: Id, run: seq<Step>) {
    Moved(c, d, Tally(Sending, run, id), Tally(Receiving, run, id), Tally(Keeping, run, id),
          Tally(LettingGo, run, id), Tally(Crediting, run, id))
  }

  function One(role: Role, step: Step, id: Id): nat {
    if Plays(role, step, id) then 1 else 0
  }

  ghost predicate StepMoves(c: Channel, d: Channel, id: Id, step: Step) {
    Moved(c, d, One(Sending, step, id), One(Receiving, step, id), One(Keeping, step, id),
          One(LettingGo, step, id), One(Crediting, step, id))
  }

  lemma BroadcastMoves(s: System, step: Step, id: Id)
    requires Shape(s) && Enabled(s, step) && (step.SendInv? || step.SendUpd?) && id in s.channels
    ensures id in Next(s, step).channels && StepMoves(s.channels[id], Next(s, step).channels[id], id, step)
  {
  }

  lemma AnswerMoves(s: System, step: Step, id: Id)
    requires Shape(s) && Enabled(s, step) && (step.SendAck? || step.ReceiveCredit? || step.ForgeAll?)
    requires id in s.channels
    ensures id in Next(s, step).channels && StepMoves(s.channels[id], Next(s, step).channels[id], id, step)
  {
  }

  lemma ReceiveMoves(s: System, step: Step, id: Id)
    requires Shape(s) && Enabled(s, step) && (step.ReceiveInv? || step.ReceiveAck? || step.ReceiveUpd?)
    requires id in s.channels
    ensures id in Next(s, step).channels && StepMoves(s.channels[id], Next(s, step).channels[id], id, step)
  {
  }

  lemma StepTotals(s: System, step: Step, id: Id)
    requires Shape(s) && Enabled(s, step) && id in s.channels
    ensures id in Next(s, step).channels && StepMoves(s.channels[id], Next(s, step).channels[id], id, step)
  {
    match step
    case SendInv(_) => BroadcastMoves(s, step, id);
    case SendUpd(_, _) => BroadcastMoves(s, step, id);
    case SendAck(_, _) => AnswerMoves(s, step, id);
    case ForgeAll(_) => AnswerMoves(s, step, id);
    case ReceiveCredit(_, _) => AnswerMoves(s, step, id);
    case _ => ReceiveMoves(s, step, id);
  }

  lemma AccountedCons(c: Channel, d: Channel, e: Channel, id: Id, step: Step, rest: seq<Step>)
    requires StepMoves(c, d, id, step) && Accounted(d, e, id, rest)
    ensures Accounted(c, e, id, [step] + rest)
  {
    assert ([step] + rest)[1..] == rest;
  }

  lemma {:induction false} RunTotals(s: System, run: seq<Step>, id: Id)
    requires Safe(s) && Runs(s, run) && id in s.channels
    ensures id in Final(s, run).channels && Accounted(s.channels[id], Final(s, run).channels[id], id, run)
    decreases |run|
  {
    if run == [] {
    } else {
      var t := Next(s, run[0]);
      StepSafe(s, run[0]);
      StepTotals(s, run[0], id);
      RunTotals(t, run[1..], id);
      AccountedCons(s.channels[id], t.channels[id], Final(t, run[1..]).channels[id], id, run[0], run[1..]);
      assert run == [run[0]] + run[1..];
    }
  }

  /** The channel's totals and held slots are those of the run since the start. */
  ghost predicate Explained(t: System, run: seq<Step>, id: Id) {
    id in t.channels && Accounted(FRESH, t.channels[id], id, run)
  }

  /** Nothing was sent on the channel yet. */
  ghost predicate Untouched(s: System, id: Id) {
    id in s.channels && s.channels[id] == FRESH
  }

  /** Every channel of the initial state is. */
  lemma UntouchedAtFirst(machines: nat, id: Id)
    requires machines >= 2 && id.from < machines && id.to < machines && id.from != id.to
    ensures Safe(Initial(machines)) && Untouched(Initial(machines), id)
  {
    InitialSafe(machines);
    InitialFlowing(machines);
    assert IsId(Initial(machines), id);
  }

  /**
   In every run from there, the slots a receiver holds are the invalidations that succeeded and are not acked yet, or
   the last acks whose updates are not sent yet; and the totals are the sends, receives and credits of the run.
   */
  lemma HeldForAnswers(s: System, run: seq<Step>, id: Id)
    requires Safe(s) && Runs(s, run) && Untouched(s, id)
    ensures Explained(Final(s, run), run, id)
  {
    RunTotals(s, run, id);
  }
}
