/** Safety of the linearizable protocol over every run, with messages lost, delayed and reordered. */
module LinSafety {
  import opened Clock
  import opened Lin
  import opened LinSystem

  ghost predicate Shape(s: System) {
    |s.lines| >= 2 && |s.acked| == |s.lines| && s.committed in s.issued
  }

  /** An issued clock is even, and the machine that issued it has not fallen behind it. */
  ghost predicate ClockOk(s: System, ts: Timestamp) {
    ts.version % 2 == 0 && ts.cid < |s.lines| && AtMost(ts, StampOf(s, ts.cid))
  }

  ghost predicate Clocks(s: System) {
    forall ts :: ts in s.issued ==> ClockOk(s, ts)
  }

  /** No copy is behind the last completed write, a readable copy is exactly at it, a writer is past it. */
  ghost predicate LineOk(s: System, m: nat)
    requires m < |s.lines|
  {
    && StampOf(s, m) in s.issued
    && AtMost(s.committed, StampOf(s, m))
    && (s.lines[m].state.Valid? ==> StampOf(s, m) == s.committed)
    && (Writing(s.lines[m]) ==> Less(s.committed, StampOf(s, m)))
  }

  ghost predicate Lines(s: System) {
    forall m: nat :: m < |s.lines| ==> LineOk(s, m)
  }

  ghost predicate CaughtUp(s: System, m: nat, x: nat)
    requires m < |s.lines|
  {
    x < |s.lines| && x != m && AtMost(StampOf(s, m), StampOf(s, x))
  }

  /** `pendingAcks` counts the other machines not yet heard from, and those heard from have caught up. */
  ghost predicate WriterOk(s: System, m: nat)
    requires Shape(s) && m < |s.lines|
  {
    Writing(s.lines[m]) ==>
      && s.lines[m].pendingAcks == |s.lines| - 1 - |s.acked[m]| && s.lines[m].pendingAcks >= 1
      && (forall x :: x in s.acked[m] ==> CaughtUp(s, m, x))
  }

  ghost predicate Writers(s: System)
    requires Shape(s)
  {
    forall m: nat :: m < |s.lines| ==> WriterOk(s, m)
  }

  ghost predicate InvOk(s: System, inv: Inv) {
    inv.ts in s.issued && inv.to < |s.lines| && inv.to != inv.ts.cid
  }

  ghost predicate Invs(s: System) {
    forall inv :: inv in s.invs ==> InvOk(s, inv)
  }

  /** An ack in flight comes from a machine that has caught up with the write it answers. */
  ghost predicate AckOk(s: System, ack: Ack) {
    && Timestamp(ack.version, ack.to) in s.issued
    && ack.from < |s.lines| && ack.from != ack.to
    && AtMost(Timestamp(ack.version, ack.to), StampOf(s, ack.from))
  }

  ghost predicate Acks(s: System) {
    forall ack :: ack in s.acks ==> AckOk(s, ack)
  }

  /** An update in flight belongs to a completed write. */
  ghost predicate UpdOk(s: System, upd: Upd) {
    upd.ts in s.issued && upd.to < |s.lines| && upd.to != upd.ts.cid && AtMost(upd.ts, s.committed)
  }

  ghost predicate Upds(s: System) {
    forall upd :: upd in s.upds ==> UpdOk(s, upd)
  }

  /** How many invalidations, acks and counted acks the write `ts` has pending with machine `x`. */
  ghost function Tokens(s: System, ts: Timestamp, x: nat): nat
    requires ts.cid < |s.acked|
  {
    s.invs[Inv(ts, x)] + s.acks[Ack(ts.version, x, ts.cid)] + (if x in s.acked[ts.cid] then 1 else 0)
  }

  /** A write can hear from another machine once at most. */
  ghost predicate TokenOk(s: System, m: nat, x: nat)
    requires Shape(s) && m < |s.lines|
  {
    Writing(s.lines[m]) ==> Tokens(s, StampOf(s, m), x) <= 1
  }

  ghost predicate TokensOk(s: System)
    requires Shape(s)
  {
    forall m: nat, x: nat :: m < |s.lines| && x < |s.lines| ==> TokenOk(s, m, x)
  }

  ghost predicate Safe(s: System) {
    Shape(s) && Clocks(s) && Lines(s) && Writers(s) && Invs(s) && Acks(s) && Upds(s) && TokensOk(s)
  }

  // ----- A step changes one machine's line and never moves a clock back -----

  ghost predicate Advance(s: System, t: System, m: nat) {
    && Shape(s) && Shape(t) && |t.lines| == |s.lines| && m < |s.lines|
    && (forall x: nat :: x < |s.lines| && x != m ==> t.lines[x] == s.lines[x] && t.acked[x] == s.acked[x])
    && AtMost(StampOf(s, m), StampOf(t, m))
    && s.issued.Keys <= t.issued.Keys
    && AtMost(s.committed, t.committed)
  }

  lemma ClocksKept(s: System, t: System, m: nat)
    requires Advance(s, t, m) && Clocks(s)
    requires forall ts :: ts in t.issued && ts !in s.issued ==> ClockOk(t, ts)
    ensures Clocks(t)
  {
    forall ts | ts in t.issued ensures ClockOk(t, ts) {
      if ts in s.issued { assert ClockOk(s, ts); }
    }
  }

  /** The step completed a write of machine `m` that no other machine is behind. */
  ghost predicate CommitReached(s: System, t: System, m: nat) {
    t.committed.cid == m && forall x: nat :: x < |s.lines| && x != m ==> AtMost(t.committed, StampOf(s, x))
  }

  lemma LinesKept(s: System, t: System, m: nat)
    requires Advance(s, t, m) && Lines(s) && LineOk(t, m)
    requires t.committed == s.committed || CommitReached(s, t, m)
    ensures Lines(t)
  {
    forall x: nat | x < |t.lines| ensures LineOk(t, x) { assert LineOk(s, x); }
  }

  lemma WritersKept(s: System, t: System, m: nat)
    requires Advance(s, t, m) && Writers(s) && WriterOk(t, m)
    ensures Writers(t)
  {
    forall x: nat | x < |t.lines| && x != m ensures WriterOk(t, x) {
      assert WriterOk(s, x);
      forall y | Writing(t.lines[x]) && y in t.acked[x] ensures CaughtUp(t, x, y) { assert CaughtUp(s, x, y); }
    }
  }

  lemma MessagesKept(s: System, t: System, m: nat)
    requires Advance(s, t, m) && Invs(s) && Acks(s) && Upds(s)
    requires forall inv :: inv in t.invs && inv !in s.invs ==> InvOk(t, inv)
    requires forall ack :: ack in t.acks && ack !in s.acks ==> AckOk(t, ack)
    requires forall upd :: upd in t.upds && upd !in s.upds ==> UpdOk(t, upd)
    ensures Invs(t) && Acks(t) && Upds(t)
  {
    forall inv | inv in t.invs ensures InvOk(t, inv) { assert inv in s.invs ==> InvOk(s, inv); }
    forall ack | ack in t.acks ensures AckOk(t, ack) { assert ack in s.acks ==> AckOk(s, ack); }
    forall upd | upd in t.upds ensures UpdOk(t, upd) { assert upd in s.upds ==> UpdOk(s, upd); }
  }

  lemma TokensKept(s: System, t: System, m: nat)
    requires Advance(s, t, m) && TokensOk(s)
    requires OthersTokens(s, t, m)
    requires forall x: nat :: x < |s.lines| ==> TokenOk(t, m, x)
    ensures TokensOk(t)
  {
    forall x: nat, y: nat | x < |t.lines| && y < |t.lines| ensures TokenOk(t, x, y) { assert TokenOk(s, x, y); }
  }

  /** What a step has to establish itself: its own machine's line and whatever it newly issued or sent. */
  ghost predicate Local(s: System, t: System, m: nat)
    requires Advance(s, t, m)
  {
    && LineOk(t, m) && WriterOk(t, m)
    && (forall x: nat :: x < |s.lines| ==> TokenOk(t, m, x))
    && (forall ts :: ts in t.issued && ts !in s.issued ==> ClockOk(t, ts))
    && (forall inv :: inv in t.invs && inv !in s.invs ==> InvOk(t, inv))
    && (forall ack :: ack in t.acks && ack !in s.acks ==> AckOk(t, ack))
    && (forall upd :: upd in t.upds && upd !in s.upds ==> UpdOk(t, upd))
  }

  ghost predicate Good(s: System, t: System, m: nat) {
    && Advance(s, t, m) && Local(s, t, m)
    && OthersTokens(s, t, m)
    && (t.committed == s.committed || CommitReached(s, t, m))
  }

  lemma SafeKept(s: System, t: System, m: nat)
    requires Safe(s) && Good(s, t, m)
    ensures Safe(t)
  {
    ClocksKept(s, t, m);
    LinesKept(s, t, m);
    WritersKept(s, t, m);
    MessagesKept(s, t, m);
    TokensKept(s, t, m);
  }

  // ----- Steps -----

  lemma InitialSafe(machines: nat, value: Value)
    requires machines >= 2
    ensures Safe(Initial(machines, value))
  {
  }

  /** A step of machine `m` that moves no clock and sends nothing. */
  ghost predicate Quiet(s: System, t: System, m: nat) {
    && m < |s.lines| == |t.lines| && t.lines == s.lines[m := t.lines[m]]
    && StampOf(t, m) == StampOf(s, m)
    && (Writing(t.lines[m]) ==> Writing(s.lines[m]) && t.lines[m].pendingAcks == s.lines[m].pendingAcks)
    && (t.lines[m].state.Valid? ==> StampOf(t, m) == t.committed)
    && t.acked == s.acked && t.issued == s.issued && t.committed == s.committed
    && t.invs <= s.invs && t.acks <= s.acks && t.upds <= s.upds
  }

  lemma QuietGood(s: System, t: System, m: nat)
    requires Safe(s) && Quiet(s, t, m)
    ensures Good(s, t, m)
  {
    assert LineOk(s, m) && WriterOk(s, m);
    forall y | y in t.acked[m] && Writing(t.lines[m]) ensures CaughtUp(t, m, y) { assert CaughtUp(s, m, y); }
    forall x: nat | x < |s.lines| ensures TokenOk(t, m, x) { assert TokenOk(s, m, x); }
  }

  lemma GetQuiet(s: System, m: nat)
    requires Safe(s) && m < |s.lines|
    ensures Quiet(s, Next(s, Get(m)), m)
  {
    assert LineOk(s, m);
  }

  lemma UpdQuiet(s: System, upd: Upd)
    requires Safe(s) && upd in s.upds
    ensures upd.to < |s.lines| && Quiet(s, AfterUpd(s, upd), upd.to)
  {
    assert UpdOk(s, upd);
    assert LineOk(s, upd.to);
  }

  lemma LossQuiet(s: System, step: Step)
    requires Shape(s) && LineOk(s, 0) && Enabled(s, step) && (step.LoseInv? || step.LoseAck? || step.LoseUpd?)
    ensures Quiet(s, Next(s, step), 0)
  {
  }

  lemma PutLocal(s: System, m: nat, session: nat, value: Value)
    requires Shape(s) && m < |s.lines| && OnPut(s.lines[m], session, value, |s.lines|).1.PutSuccess?
    requires LineOk(s, m) && s.lines[m].version % 2 == 0
    requires var ts := Timestamp(s.lines[m].version + 2, m);
             forall x: nat :: Inv(ts, x) !in s.invs && Ack(ts.version, x, m) !in s.acks
    ensures Good(s, AfterPut(s, m, session, value), m)
  {
    var t := AfterPut(s, m, session, value);
    assert StampOf(t, m) == Timestamp(s.lines[m].version + 2, m);
    PutTokens(s, t, StampOf(t, m));
  }

  lemma PutGood(s: System, m: nat, session: nat, value: Value)
    requires Safe(s) && m < |s.lines| && OnPut(s.lines[m], session, value, |s.lines|).1.PutSuccess?
    ensures Good(s, AfterPut(s, m, session, value), m)
  {
    assert LineOk(s, m) && ClockOk(s, StampOf(s, m));
    NotYetIssued(s, m, Timestamp(s.lines[m].version + 2, m));
    PutLocal(s, m, session, value);
  }

  /** The tokens of other machines' writes did not grow. */
  ghost predicate OthersTokens(s: System, t: System, m: nat) {
    && |s.acked| == |t.acked|
    && forall ts: Timestamp, x: nat :: ts.cid < |s.acked| && ts.cid != m ==> Tokens(t, ts, x) <= Tokens(s, ts, x)
  }

  lemma PutTokens(s: System, t: System, ts: Timestamp)
    requires ts.cid < |s.acked| && t.acked == s.acked[ts.cid := {}]
    requires t.acks == s.acks && t.invs == s.invs + InvsOf(ts, |s.lines|)
    requires forall x: nat :: Inv(ts, x) !in s.invs && Ack(ts.version, x, ts.cid) !in s.acks
    ensures OthersTokens(s, t, ts.cid)
    ensures forall x: nat :: x < |s.lines| ==> Tokens(t, ts, x) <= 1
  {
  }

  /** An invalidation turns into at most one ack. */
  lemma InvTokens(s: System, t: System, inv: Inv, m: nat)
    requires inv in s.invs && t.acked == s.acked && t.invs == s.invs - multiset{inv}
    requires t.acks <= s.acks + multiset{Ack(inv.ts.version, inv.to, inv.ts.cid)}
    ensures OthersTokens(s, t, m)
  {
  }

  lemma AckTokens(s: System, t: System, ack: Ack)
    requires ack in s.acks && ack.to < |s.acked| == |t.acked| && t.invs == s.invs && t.acks == s.acks - multiset{ack}
    requires forall x: nat :: x < |s.acked| && x != ack.to ==> t.acked[x] == s.acked[x]
    ensures OthersTokens(s, t, ack.to)
  {
  }

  /** A clock ahead of its own machine has not been issued, and no message mentions it. */
  lemma NotYetIssued(s: System, m: nat, ts: Timestamp)
    requires Safe(s) && m < |s.lines| && ts.cid == m && Less(StampOf(s, m), ts)
    ensures ts !in s.issued
    ensures forall x: nat :: Inv(ts, x) !in s.invs && Ack(ts.version, x, m) !in s.acks
  {
    assert ts in s.issued ==> ClockOk(s, ts);
    forall x: nat ensures Inv(ts, x) !in s.invs { assert Inv(ts, x) in s.invs ==> InvOk(s, Inv(ts, x)); }
    forall x: nat ensures Ack(ts.version, x, m) !in s.acks {
      assert Ack(ts.version, x, m) in s.acks ==> AckOk(s, Ack(ts.version, x, m));
    }
  }

  lemma InvGood(s: System, inv: Inv)
    requires Safe(s) && inv in s.invs && inv.to < |s.lines| && Less(StampOf(s, inv.to), inv.ts)
    ensures Good(s, AfterInv(s, inv), inv.to)
  {
    assert InvOk(s, inv);
    assert LineOk(s, inv.to);
    InvTokens(s, AfterInv(s, inv), inv, inv.to);
  }

  lemma InvIgnored(s: System, inv: Inv)
    requires Safe(s) && inv in s.invs && inv.to < |s.lines| && !Less(StampOf(s, inv.to), inv.ts)
    ensures Quiet(s, AfterInv(s, inv), inv.to)
  {
    assert LineOk(s, inv.to);
  }

  lemma CountedLocal(s: System, ack: Ack, slot: Value)
    requires Shape(s) && ack in s.acks && ack.to < |s.lines|
    requires OnAck(s.lines[ack.to], ack.to, ack.version).1.AckSuccess?
    requires LineOk(s, ack.to) && AckOk(s, ack) && WriterOk(s, ack.to)
    requires forall x: nat :: x < |s.lines| ==> TokenOk(s, ack.to, x)
    ensures Good(s, AfterAck(s, ack, slot), ack.to)
  {
    var t := AfterAck(s, ack, slot);
    var m := ack.to;
    assert TokenOk(s, m, ack.from);
    AckTokens(s, t, ack);
    forall y | y in t.acked[m] ensures CaughtUp(t, m, y) { assert y in s.acked[m] ==> CaughtUp(s, m, y); }
    forall x: nat | x < |s.lines| ensures TokenOk(t, m, x) { assert TokenOk(s, m, x); }
  }

  lemma AckCounted(s: System, ack: Ack, slot: Value)
    requires Safe(s) && ack in s.acks && ack.to < |s.lines|
    requires OnAck(s.lines[ack.to], ack.to, ack.version).1.AckSuccess?
    ensures Good(s, AfterAck(s, ack, slot), ack.to)
  {
    CountedLocal(s, ack, slot);
  }

  lemma LastAckLocal(s: System, ack: Ack, slot: Value)
    requires Shape(s) && ack in s.acks && ack.to < |s.lines|
    requires OnAck(s.lines[ack.to], ack.to, ack.version).1.LastAckSuccess?
    requires LineOk(s, ack.to)
    requires forall x: nat :: x < |s.lines| && x != ack.to ==> AtMost(StampOf(s, ack.to), StampOf(s, x))
    ensures Good(s, AfterAck(s, ack, slot), ack.to)
  {
    AckTokens(s, AfterAck(s, ack, slot), ack);
  }

  lemma LastAckGood(s: System, ack: Ack, slot: Value)
    requires Safe(s) && ack in s.acks && ack.to < |s.lines|
    requires OnAck(s.lines[ack.to], ack.to, ack.version).1.LastAckSuccess?
    ensures Good(s, AfterAck(s, ack, slot), ack.to)
  {
    LastAckHeardFromAll(s, ack);
    LastAckLocal(s, ack, slot);
  }

  lemma AckIgnored(s: System, ack: Ack, slot: Value)
    requires Safe(s) && ack in s.acks && ack.to < |s.lines|
    requires OnAck(s.lines[ack.to], ack.to, ack.version).1.AckFail?
    ensures Quiet(s, AfterAck(s, ack, slot), ack.to)
  {
    assert LineOk(s, ack.to);
  }

  /** When the last ack arrives, every other machine's clock has reached the write. */
  lemma LastAckHeardFromAll(s: System, ack: Ack)
    requires Safe(s) && ack in s.acks && ack.to < |s.lines|
    requires OnAck(s.lines[ack.to], ack.to, ack.version).1.LastAckSuccess?
    ensures forall x: nat :: x < |s.lines| && x != ack.to ==>
              AtMost(StampOf(s, ack.to), StampOf(s, x)) && (x in s.acked[ack.to] || x == ack.from)
  {
    var m := ack.to;
    assert AckOk(s, ack) && WriterOk(s, m) && TokenOk(s, m, ack.from);
    var others := Machines(|s.lines|) - {m};
    var heard := s.acked[m] + {ack.from};
    forall x | x in heard ensures x in others {
      assert x in s.acked[m] ==> CaughtUp(s, m, x);
    }
    SubsetOfSameSize(heard, others);
    forall x: nat | x < |s.lines| && x != m ensures x in heard && AtMost(StampOf(s, m), StampOf(s, x)) {
      assert x in others;
      assert x in s.acked[m] ==> CaughtUp(s, m, x);
    }
  }

  lemma SubsetOfSameSize<T>(a: set<T>, b: set<T>)
    requires a <= b && |a| == |b|
    ensures a == b
  {
    assert b == a + (b - a);
  }

  /** The machine ids. */
  ghost function Machines(n: nat): (r: set<nat>)
    ensures |r| == n
    ensures forall x: nat :: x in r <==> x < n
  {
    if n == 0 then {} else Machines(n - 1) + {n - 1}
  }

  lemma GetSafe(s: System, m: nat)
    requires Safe(s) && m < |s.lines|
    ensures Safe(Next(s, Get(m)))
  {
    GetQuiet(s, m);
    QuietGood(s, Next(s, Get(m)), m);
    SafeKept(s, Next(s, Get(m)), m);
  }

  lemma PutSafe(s: System, m: nat, session: nat, value: Value)
    requires Safe(s) && m < |s.lines|
    ensures Safe(AfterPut(s, m, session, value))
  {
    if OnPut(s.lines[m], session, value, |s.lines|).1.PutSuccess? {
      PutGood(s, m, session, value);
      SafeKept(s, AfterPut(s, m, session, value), m);
    } else {
      assert AfterPut(s, m, session, value) == s;
    }
  }

  lemma InvSafe(s: System, inv: Inv)
    requires Safe(s) && inv in s.invs && inv.to < |s.lines|
    ensures Safe(AfterInv(s, inv))
  {
    if Less(StampOf(s, inv.to), inv.ts) {
      InvGood(s, inv);
    } else {
      InvIgnored(s, inv);
      QuietGood(s, AfterInv(s, inv), inv.to);
    }
    SafeKept(s, AfterInv(s, inv), inv.to);
  }

  lemma AckSafe(s: System, ack: Ack, slot: Value)
    requires Safe(s) && ack in s.acks && ack.to < |s.lines|
    ensures Safe(AfterAck(s, ack, slot))
  {
    var r := OnAck(s.lines[ack.to], ack.to, ack.version).1;
    if r.LastAckSuccess? {
      LastAckGood(s, ack, slot);
    } else if r.AckSuccess? {
      AckCounted(s, ack, slot);
    } else {
      AckIgnored(s, ack, slot);
      QuietGood(s, AfterAck(s, ack, slot), ack.to);
    }
    SafeKept(s, AfterAck(s, ack, slot), ack.to);
  }

  lemma UpdSafe(s: System, upd: Upd)
    requires Safe(s) && upd in s.upds && upd.to < |s.lines|
    ensures Safe(AfterUpd(s, upd))
  {
    UpdQuiet(s, upd);
    QuietGood(s, AfterUpd(s, upd), upd.to);
    SafeKept(s, AfterUpd(s, upd), upd.to);
  }

  lemma LossSafe(s: System, step: Step)
    requires Safe(s) && Enabled(s, step) && (step.LoseInv? || step.LoseAck? || step.LoseUpd?)
    ensures Safe(Next(s, step))
  {
    assert LineOk(s, 0);
    LossQuiet(s, step);
    QuietGood(s, Next(s, step), 0);
    SafeKept(s, Next(s, step), 0);
  }

  /** Every step, in any order and with any loss, keeps the invariant. */
  lemma StepSafe(s: System, step: Step)
    requires Safe(s) && Enabled(s, step)
    ensures Safe(Next(s, step))
  {
    match step
    case Get(m) => GetSafe(s, m);
    case Put(m, session, value) => PutSafe(s, m, session, value);
    case DeliverInv(inv) => InvSafe(s, inv);
    case DeliverAck(ack, slot) => AckSafe(s, ack, slot);
    case DeliverUpd(upd) => UpdSafe(s, upd);
    case _ => LossSafe(s, step);
  }
}
