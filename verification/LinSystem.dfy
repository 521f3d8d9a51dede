/**
 Every machine's copy of one key, the messages in flight on the three virtual channels, and the
 steps of a run. Channels are unordered and deliver a message at most once.
 */
module LinSystem {
  import opened Clock
  import opened Lin

  datatype Inv = Inv(ts: Timestamp, to: nat)
  datatype Ack = Ack(version: nat, from: nat, to: nat)
  datatype Upd = Upd(ts: Timestamp, to: nat, value: Value)

  /**
   `acked`, `issued` and `committed` are history: the machines whose ack the current write of each
   machine has counted, the value each issued timestamp stands for, and the last completed write.
   */
  datatype System = System(
    lines: seq<Line>,
    invs: multiset<Inv>,
    acks: multiset<Ack>,
    upds: multiset<Upd>,
    acked: seq<set<nat>>,
    issued: map<Timestamp, Value>,
    committed: Timestamp)

  /**
   `slot` in DeliverAck is what the receive buffer held where the ack was copied: an ack carries no
   value, and the update queued on the last ack is sent from that buffer.
   */
  datatype Step =
    | Get(m: nat)
    | Put(m: nat, session: nat, value: Value)
    | DeliverInv(inv: Inv)
    | DeliverAck(ack: Ack, slot: Value)
    | DeliverUpd(upd: Upd)
    | LoseInv(inv: Inv)
    | LoseAck(ack: Ack)
    | LoseUpd(upd: Upd)

  /**
   What happens to the key. A write begins at its PUT and completes at its last ack; the client that made it moves
   on as soon as the invalidations are broadcast, and is not told when that is.
   */
  datatype Event =
    | Read(m: nat, ts: Timestamp)
    | Begin(m: nat, ts: Timestamp)
    | Complete(m: nat, ts: Timestamp)
    | Silent

  function Initial(machines: nat, value: Value): (s: System) {
    System(seq(machines, _ => Line(Valid, 0, 0, 0, value)),
           multiset{}, multiset{}, multiset{},
           seq(machines, _ => {}), map[ZERO := value], ZERO)
  }

  function StampOf(s: System, m: nat): Timestamp
    requires m < |s.lines|
  {
    Stamp(s.lines[m], m)
  }

  predicate Enabled(s: System, step: Step) {
    match step
    case Get(m) => m < |s.lines|
    case Put(m, _, _) => m < |s.lines|
    case DeliverInv(inv) => inv in s.invs && inv.to < |s.lines|
    case DeliverAck(ack, _) => ack in s.acks && ack.to < |s.lines|
    case DeliverUpd(upd) => upd in s.upds && upd.to < |s.lines|
    case LoseInv(inv) => inv in s.invs
    case LoseAck(ack) => ack in s.acks
    case LoseUpd(upd) => upd in s.upds
  }

  /** A broadcast: one message for every machine but the sender. */
  function InvsOf(ts: Timestamp, machines: nat): (r: multiset<Inv>)
    ensures forall inv :: r[inv] == if inv.ts == ts && inv.to < machines && inv.to != ts.cid then 1 else 0
  {
    multiset(set j | 0 <= j < machines && j != ts.cid :: Inv(ts, j))
  }

  function UpdsOf(ts: Timestamp, machines: nat, value: Value): (r: multiset<Upd>)
    ensures forall upd :: r[upd] ==
              if upd.ts == ts && upd.to < machines && upd.to != ts.cid && upd.value == value then 1 else 0
  {
    multiset(set j | 0 <= j < machines && j != ts.cid :: Upd(ts, j, value))
  }

  function AfterPut(s: System, m: nat, session: nat, value: Value): System
    requires m < |s.lines| && |s.acked| == |s.lines|
  {
    var (l, r) := OnPut(s.lines[m], session, value, |s.lines|);
    if r.PutSuccess? then
      var ts := Timestamp(l.version, m);
      s.(lines := s.lines[m := l],
         invs := s.invs + InvsOf(ts, |s.lines|),
         acked := s.acked[m := {}],
         issued := s.issued[ts := value])
    else
      s
  }

  /** Only an invalidation that succeeded is acknowledged. */
  function AfterInv(s: System, inv: Inv): System
    requires inv.to < |s.lines|
  {
    var (l, r) := OnInv(s.lines[inv.to], inv.to, inv.ts);
    s.(lines := s.lines[inv.to := l],
       invs := s.invs - multiset{inv},
       acks := if r.InvSuccess? then s.acks + multiset{Ack(inv.ts.version, inv.to, inv.ts.cid)} else s.acks)
  }

  function AfterAck(s: System, ack: Ack, slot: Value): System
    requires ack.to < |s.lines| && |s.acked| == |s.lines|
  {
    var (l, r) := OnAck(s.lines[ack.to], ack.to, ack.version);
    var s' := s.(lines := s.lines[ack.to := l], acks := s.acks - multiset{ack});
    match r
    case AckSuccess => s'.(acked := s.acked[ack.to := s.acked[ack.to] + {ack.from}])
    case LastAckSuccess =>
      var ts := Timestamp(ack.version, ack.to);
      s'.(upds := s.upds + UpdsOf(ts, |s.lines|, slot), committed := ts)
    case _ => s'
  }

  function AfterUpd(s: System, upd: Upd): System
    requires upd.to < |s.lines|
  {
    s.(lines := s.lines[upd.to := OnUpd(s.lines[upd.to], upd.ts, upd.value).0], upds := s.upds - multiset{upd})
  }

  function Next(s: System, step: Step): (t: System)
    requires Enabled(s, step) && |s.acked| == |s.lines|
    ensures |t.lines| == |s.lines| && |t.acked| == |s.acked|
  {
    match step
    case Get(m) => s.(lines := s.lines[m := OnGet(s.lines[m]).0])
    case Put(m, session, value) => AfterPut(s, m, session, value)
    case DeliverInv(inv) => AfterInv(s, inv)
    case DeliverAck(ack, slot) => AfterAck(s, ack, slot)
    case DeliverUpd(upd) => AfterUpd(s, upd)
    case LoseInv(inv) => s.(invs := s.invs - multiset{inv})
    case LoseAck(ack) => s.(acks := s.acks - multiset{ack})
    case LoseUpd(upd) => s.(upds := s.upds - multiset{upd})
  }

  function Observe(s: System, step: Step): Event
    requires Enabled(s, step)
  {
    match step
    case Get(m) => if OnGet(s.lines[m]).1.GetSuccess? then Read(m, StampOf(s, m)) else Silent
    case Put(m, session, value) =>
      var (l, r) := OnPut(s.lines[m], session, value, |s.lines|);
      if r.PutSuccess? then Begin(m, Timestamp(l.version, m)) else Silent
    case DeliverAck(ack, _) =>
      if OnAck(s.lines[ack.to], ack.to, ack.version).1.LastAckSuccess?
      then Complete(ack.to, Timestamp(ack.version, ack.to)) else Silent
    case _ => Silent
  }

  ghost predicate Runs(s: System, steps: seq<Step>)
    decreases |steps|
  {
    |s.acked| == |s.lines| &&
    (steps == [] || (Enabled(s, steps[0]) && Runs(Next(s, steps[0]), steps[1..])))
  }

  ghost function Final(s: System, steps: seq<Step>): System
    requires Runs(s, steps)
    decreases |steps|
  {
    if steps == [] then s else Final(Next(s, steps[0]), steps[1..])
  }

  ghost function Events(s: System, steps: seq<Step>): seq<Event>
    requires Runs(s, steps)
    decreases |steps|
  {
    if steps == [] then [] else [Observe(s, steps[0])] + Events(Next(s, steps[0]), steps[1..])
  }
}
