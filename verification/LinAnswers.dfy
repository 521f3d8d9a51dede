/** What the answers of the linearizable protocol tell a client: which writes are dropped, and which to try again. */
module LinAnswers {
  import opened Clock
  import opened Lin
  import opened LinSystem
  import opened LinSafety
  import opened LinDrain

  function PutAnswer(s: System, m: nat, session: nat, value: Value): Response
    requires m < |s.lines|
  {
    OnPut(s.lines[m], session, value, |s.lines|).1
  }

  /**
   A client drops a PUT that failed. That is exactly when its machine is writing for a larger session, above every
   write completed so far; the copy is left alone.
   */
  lemma FailedIffOvertaken(s: System, m: nat, session: nat, value: Value)
    requires Safe(s) && m < |s.lines|
    ensures PutAnswer(s, m, session, value).PutFail? <==> Writing(s.lines[m]) && session < s.lines[m].cid
    ensures PutAnswer(s, m, session, value).PutFail? ==> Less(s.committed, StampOf(s, m))
    ensures !PutAnswer(s, m, session, value).PutSuccess? ==> Next(s, Put(m, session, value)) == s
  {
    assert LineOk(s, m);
  }

  /** Once the copies have converged, every PUT begins a write above all others. */
  ghost predicate Begins(t: System, m: nat, session: nat, value: Value) {
    && m < |t.lines| && PutAnswer(t, m, session, value).PutSuccess?
    && Observe(t, Put(m, session, value)) == Begin(m, Timestamp(t.committed.version + 2, m))
    && forall ts :: ts in t.issued ==> Less(ts, Timestamp(t.committed.version + 2, m))
  }

  lemma ConvergedBegins(t: System, m: nat, session: nat, value: Value)
    requires Converged(t) && m < |t.lines|
    ensures Begins(t, m, session, value)
  {
    assert StampOf(t, m) == t.committed;
  }

  /**
   A client keeps a PUT that stalled and makes it again. Whatever order the messages under way are delivered in, it
   then succeeds, with a clock above every write issued so far.
   */
  lemma StalledPutSucceeds(s: System, m: nat, session: nat, value: Value, choose: System -> Step)
    requires Safe(s) && Live(s) && Delivers(choose) && m < |s.lines|
    requires PutAnswer(s, m, session, value).PutStall?
    ensures s.lines[m].state.InvalidReplay? || s.lines[m].state.WriteReplay?
    ensures Begins(Drain(s, choose), m, session, value)
  {
    EveryScheduleConverges(s, choose);
    DrainKeepsMachines(s, choose);
    ConvergedBegins(Drain(s, choose), m, session, value);
  }

  /** The same for a GET: it reads the largest write. */
  lemma StalledGetSucceeds(s: System, m: nat, choose: System -> Step)
    requires Safe(s) && Live(s) && Delivers(choose) && m < |s.lines| && OnGet(s.lines[m]).1.GetStall?
    ensures !s.lines[m].state.Valid?
    ensures var t := Drain(s, choose);
            && m < |t.lines| && Observe(t, Get(m)) == Read(m, t.committed)
            && forall ts :: ts in t.issued ==> AtMost(ts, t.committed)
  {
    EveryScheduleConverges(s, choose);
    DrainKeepsMachines(s, choose);
  }

  lemma {:induction false} DrainKeepsMachines(s: System, choose: System -> Step)
    requires Safe(s) && Delivers(choose)
    ensures |Drain(s, choose).lines| == |s.lines|
    decreases |s.invs|, |s.acks|, |s.upds|
  {
    if Drained(s) {
    } else {
      StepSafe(s, choose(s));
      DeliveryShrinks(s, choose(s));
      DrainKeepsMachines(Next(s, choose(s)), choose);
    }
  }

  /**
   What an ack does to a write: it completes it if it is the last one awaited, takes one off the count if not, and
   is refused, changing nothing, exactly when it is not for the write under way.
   */
  lemma AckAnswers(s: System, ack: Ack)
    requires Safe(s) && ack in s.acks && ack.to < |s.lines|
    ensures var (l, r) := OnAck(s.lines[ack.to], ack.to, ack.version);
            var was, mine := s.lines[ack.to], StillWriting(s, Timestamp(ack.version, ack.to));
            && (r.AckFail? <==> !mine) && (r.AckFail? ==> l == was)
            && (r.AckSuccess? <==> mine && was.pendingAcks > 1)
            && (r.AckSuccess? ==> l == was.(pendingAcks := was.pendingAcks - 1))
            && (r.LastAckSuccess? <==> mine && was.pendingAcks == 1)
            && (r.LastAckSuccess? ==> l.state.Valid? && Stamp(l, ack.to) == Timestamp(ack.version, ack.to))
  {
    assert WriterOk(s, ack.to) && AckOk(s, ack);
  }

  /** An invalidation is acked exactly when it is above the copy, which then is at its clock and not readable. */
  lemma InvAnswers(s: System, inv: Inv)
    requires Safe(s) && inv in s.invs && inv.to < |s.lines|
    ensures var (l, r) := OnInv(s.lines[inv.to], inv.to, inv.ts);
            && (r.InvSuccess? || r.InvFail?) && (r.InvSuccess? <==> Less(StampOf(s, inv.to), inv.ts))
            && (r.InvSuccess? ==> Stamp(l, inv.to) == inv.ts && !l.state.Valid? && !Writing(l))
            && (r.InvFail? ==> l == s.lines[inv.to])
    ensures var stalled := OnGet(s.lines[inv.to]).0 == s.lines[inv.to] && !s.lines[inv.to].state.Valid?;
            var l := OnInv(s.lines[inv.to], inv.to, inv.ts).0;
            stalled ==> OnGet(l).0 == l && !l.state.Valid?
  {
    assert InvOk(s, inv) && LineOk(s, inv.to);
  }
}
