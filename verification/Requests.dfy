/**
 The clients and workers that share an index, one of each on every machine: clients send data requests to the
 workers of the other machines, which collect them, answer a whole batch at a time, and so never hold more than
 one request of each client.
 */
module Requests {
  import opened Client
  import ColdBatch
  import opened Config

  datatype Stage = InFlight | Collected | Answered

  /** A data request from the client on one machine to the worker on another, wherever it has got to. */
  datatype Request = Request(from: nat, to: nat, ops: nat, stage: Stage)

  datatype System = System(clients: seq<Client>, live: seq<Request>)

  /** `queued` holds how many operations the round queued for each machine; `hot`, whether it broadcasts. */
  datatype Step =
    | Round(i: nat, queued: seq<nat>, hot: bool)
    | Collect(k: nat)
    | Drain(m: nat)
    | Respond(k: nat)
    | CacheResponse(i: nat, m: nat)

  function Initial(machines: nat): System {
    System(seq(machines, _ => IDLE), [])
  }

  /** A round queues at most KVS_BATCH operations for a machine, and none for its own. */
  predicate QueuedOk(machines: nat, i: nat, queued: seq<nat>) {
    && |queued| == machines && i < machines && queued[i] == 0
    && forall m :: 0 <= m < machines ==> queued[m] <= KVS_BATCH
  }

  function Others(machines: nat, i: nat): set<nat> {
    if machines == 0 then {} else Others(machines - 1, i) + if machines - 1 != i then {machines - 1} else {}
  }

  /** Rounds whose cache-buffer assertion fails abort, and are not steps. */
  predicate Enabled(s: System, step: Step) {
    match step
    case Round(i, queued, hot) =>
      QueuedOk(|s.clients|, i, queued) && MaySend(s.clients[i]) && (hot ==> s.clients[i].cache == {})
    case Collect(k) => k < |s.live| && s.live[k].stage.InFlight?
    case Drain(m) => true
    case Respond(k) =>
      && k < |s.live| && s.live[k].stage.Answered? && s.live[k].from < |s.clients|
      && s.live[k].to in s.clients[s.live[k].from].data && s.clients[s.live[k].from].inTransit > 0
    case CacheResponse(i, m) => i < |s.clients| && m in s.clients[i].cache && s.clients[i].inTransit > 0
  }

  /** The requests a round sends, to the machines below `n`. */
  function Sent(i: nat, queued: seq<nat>, n: nat): seq<Request>
    requires n <= |queued|
  {
    if n == 0 then []
    else
      Sent(i, queued, n - 1)
      + if n - 1 != i && queued[n - 1] > 0 then [Request(i, n - 1, queued[n - 1], InFlight)] else []
  }

  function Drained(live: seq<Request>, m: nat): (r: seq<Request>)
    ensures |r| == |live|
  {
    seq(|live|, k requires 0 <= k < |live| =>
      if live[k].to == m && live[k].stage.Collected? then live[k].(stage := Answered) else live[k])
  }

  function Next(s: System, step: Step): System
    requires Enabled(s, step)
  {
    match step
    case Round(i, queued, hot) =>
      var n := |s.clients|;
      System(s.clients[i := Send(Broadcast(s.clients[i], Others(n, i), hot), Targets(queued, i, n))],
             s.live + Sent(i, queued, n))
    case Collect(k) => s.(live := s.live[k := s.live[k].(stage := Collected)])
    case Drain(m) => s.(live := Drained(s.live, m))
    case Respond(k) =>
      var r := s.live[k];
      System(s.clients[r.from := DataReply(s.clients[r.from], r.to)], s.live[..k] + s.live[k + 1..])
    case CacheResponse(i, m) => s.(clients := s.clients[i := CacheReply(s.clients[i], m)])
  }

  // ----- Invariant -----

  ghost predicate RequestOk(s: System, k: nat)
    requires k < |s.live|
  {
    var r := s.live[k];
    && r.from < |s.clients| && r.to < |s.clients| && r.from != r.to
    && 0 < r.ops <= KVS_BATCH
    && r.to in s.clients[r.from].data
  }

  /** At most one request from a client to a machine is outstanding. */
  ghost predicate Distinct(live: seq<Request>) {
    forall j, k :: 0 <= j < k < |live| ==> live[j].from != live[k].from || live[j].to != live[k].to
  }

  /** A live request from this client to this machine. */
  ghost predicate Pending(live: seq<Request>, i: nat, m: nat) {
    exists k :: 0 <= k < |live| && live[k].from == i && live[k].to == m
  }

  /** A data buffer is in use exactly for a request that is still on its way or being answered. */
  ghost predicate BuffersExact(s: System) {
    forall i: nat, m: nat :: i < |s.clients| ==> (m in s.clients[i].data <==> Pending(s.live, i, m))
  }

  ghost predicate Safe(s: System) {
    && (forall i :: 0 <= i < |s.clients| ==> Ok(s.clients[i]))
    && (forall k :: 0 <= k < |s.live| ==> RequestOk(s, k))
    && Distinct(s.live) && BuffersExact(s)
  }

  /** What a round of the batch loop queues is within what the steps here assume. */
  lemma BatchQueuedOk(machines: nat, i: nat, ops: seq<ColdBatch.Slot>)
    requires ColdBatch.HomesOk(machines, i, ops) && i < machines
    ensures var queues := ColdBatch.PlaceAll(machines, i, ops).queues;
            QueuedOk(machines, i, seq(machines, m requires 0 <= m < machines => |queues[m]|))
  {
    forall m: nat | m < machines ensures |ColdBatch.PlaceAll(machines, i, ops).queues[m]| <= KVS_BATCH {
      ColdBatch.QueueBound(machines, i, ops, m);
    }
    ColdBatch.QueueBound(machines, i, ops, i);
  }

  lemma {:induction false} SentOk(i: nat, queued: seq<nat>, n: nat)
    requires QueuedOk(|queued|, i, queued) && n <= |queued|
    ensures forall k :: 0 <= k < |Sent(i, queued, n)| ==>
              var r := Sent(i, queued, n)[k];
              r.from == i && r.to < n && r.to != i && 0 < r.ops <= KVS_BATCH && r.to in Targets(queued, i, n)
    ensures Distinct(Sent(i, queued, n))
  {
    if n == 0 {
    } else {
      SentOk(i, queued, n - 1);
    }
  }

  /** A round sends one request to every machine it queued for, with the operations queued, and none to others. */
  lemma {:induction false} SentExactly(i: nat, queued: seq<nat>, n: nat, m: nat)
    requires n <= |queued|
    ensures Pending(Sent(i, queued, n), i, m) <==> m < n && m != i && queued[m] > 0
    ensures m < n && m != i && queued[m] > 0 ==> Request(i, m, queued[m], InFlight) in Sent(i, queued, n)
    ensures forall k :: 0 <= k < |Sent(i, queued, n)| ==> Sent(i, queued, n)[k].from == i
  {
    if n == 0 {
    } else {
      SentExactly(i, queued, n - 1, m);
      var before, after := Sent(i, queued, n - 1), Sent(i, queued, n);
      assert forall k :: 0 <= k < |before| ==> after[k] == before[k];
      if m == n - 1 && m != i && queued[m] > 0 { assert after[|before|].to == m; }
    }
  }

  lemma {:induction false} OthersAre(machines: nat, i: nat, m: nat)
    ensures m in Others(machines, i) <==> m < machines && m != i
  {
    if machines == 0 {
    } else {
      OthersAre(machines - 1, i, m);
    }
  }

  /** A round leaves a data buffer in use for every machine it queued for, and a cache buffer for all others if hot. */
  lemma RoundMarks(s: System, i: nat, queued: seq<nat>, hot: bool, m: nat)
    requires Safe(s) && Enabled(s, Round(i, queued, hot))
    ensures var c, t := s.clients[i], Next(s, Round(i, queued, hot)).clients[i];
            && (m in t.data <==> m < |queued| && m != i && queued[m] > 0)
            && (m in t.cache <==> if hot then m < |queued| && m != i else m in c.cache)
            && (t.sent <==> t.data != {}) && t.inTransit == |t.data| + |t.cache|
  {
    var n := |s.clients|;
    assert Ok(s.clients[i]);
    DataBuffersFree(s.clients[i]);
    RoundOk(s.clients[i], Others(n, i), Targets(queued, i, n), hot);
    TargetsAre(queued, i, n, m);
    OthersAre(n, i, m);
  }

  lemma PendingAppend(a: seq<Request>, b: seq<Request>, i: nat, m: nat)
    ensures Pending(a + b, i, m) <==> Pending(a, i, m) || Pending(b, i, m)
  {
    assert forall k :: 0 <= k < |a| ==> (a + b)[k] == a[k];
    assert forall k :: 0 <= k < |b| ==> (a + b)[|a| + k] == b[k];
    assert forall k :: |a| <= k < |a + b| ==> (a + b)[k] == b[k - |a|];
  }

  lemma RoundExact(s: System, i: nat, queued: seq<nat>, hot: bool)
    requires BuffersExact(s) && Enabled(s, Round(i, queued, hot))
    ensures BuffersExact(Next(s, Round(i, queued, hot)))
  {
    var n, t := |s.clients|, Next(s, Round(i, queued, hot));
    forall j: nat, m: nat | j < |t.clients| ensures m in t.clients[j].data <==> Pending(t.live, j, m) {
      PendingAppend(s.live, Sent(i, queued, n), j, m);
      SentExactly(i, queued, n, m);
      TargetsAre(queued, i, n, m);
      assert m in s.clients[j].data <==> Pending(s.live, j, m);
    }
  }

  lemma RoundSafe(s: System, i: nat, queued: seq<nat>, hot: bool)
    requires Safe(s) && Enabled(s, Round(i, queued, hot))
    ensures Safe(Next(s, Round(i, queued, hot)))
    ensures BuffersFree(s.clients[i], Targets(queued, i, |s.clients|), hot)
  {
    var n, t := |s.clients|, Next(s, Round(i, queued, hot));
    assert Ok(s.clients[i]);
    RoundOk(s.clients[i], Others(n, i), Targets(queued, i, n), hot);
    DataBuffersFree(s.clients[i]);
    SentOk(i, queued, n);
    RoundExact(s, i, queued, hot);
    forall k | 0 <= k < |s.live| ensures s.live[k].from != i && RequestOk(t, k) { assert RequestOk(s, k); }
    forall k | 0 <= k < |t.live| ensures RequestOk(t, k) {
      if k >= |s.live| { assert t.live[k] == Sent(i, queued, n)[k - |s.live|]; }
    }
    assert Distinct(t.live);
  }

  lemma StagesSafe(s: System, live: seq<Request>)
    requires Safe(s) && |live| == |s.live|
    requires forall k :: 0 <= k < |live| ==> live[k] == s.live[k].(stage := live[k].stage)
    ensures Safe(s.(live := live))
  {
    forall k | 0 <= k < |live| ensures RequestOk(s.(live := live), k) { assert RequestOk(s, k); }
    forall i: nat, m: nat | i < |s.clients| ensures m in s.clients[i].data <==> Pending(live, i, m) {
      assert m in s.clients[i].data <==> Pending(s.live, i, m);
      assert forall k :: 0 <= k < |live| ==> live[k].from == s.live[k].from && live[k].to == s.live[k].to;
    }
  }

  lemma RespondExact(s: System, k: nat)
    requires BuffersExact(s) && Distinct(s.live) && Enabled(s, Respond(k))
    ensures BuffersExact(Next(s, Respond(k)))
  {
    var t, r := Next(s, Respond(k)), s.live[k];
    forall i: nat, m: nat | i < |t.clients| ensures m in t.clients[i].data <==> Pending(t.live, i, m) {
      assert m in s.clients[i].data <==> Pending(s.live, i, m);
      RemovedPending(s.live, k, i, m);
    }
  }

  /** Taking out a request takes out its sender and receiver, and no other pair. */
  lemma RemovedPending(live: seq<Request>, k: nat, i: nat, m: nat)
    requires Distinct(live) && k < |live|
    ensures Pending(live[..k] + live[k + 1..], i, m)
            <==> Pending(live, i, m) && !(live[k].from == i && live[k].to == m)
  {
    var rest := live[..k] + live[k + 1..];
    assert forall j :: 0 <= j < k ==> rest[j] == live[j];
    assert forall j :: k < j < |live| ==> live[j] == rest[j - 1];
    assert forall j :: k <= j < |rest| ==> rest[j] == live[j + 1];
  }

  lemma RespondSafe(s: System, k: nat)
    requires Safe(s) && Enabled(s, Respond(k))
    ensures Safe(Next(s, Respond(k)))
  {
    var t, r := Next(s, Respond(k)), s.live[k];
    ReplyOk(s.clients[r.from], r.to);
    RespondExact(s, k);
    forall j | 0 <= j < |t.live| ensures RequestOk(t, j) {
      var was := if j < k then j else j + 1;
      assert t.live[j] == s.live[was] && RequestOk(s, was);
    }
  }

  /** An answer always finds the buffer of the request it answers. */
  lemma AnswerWelcome(s: System, k: nat)
    requires Safe(s) && k < |s.live| && s.live[k].stage.Answered?
    ensures Enabled(s, Respond(k))
  {
    assert RequestOk(s, k);
    ReplyOk(s.clients[s.live[k].from], s.live[k].to);
  }

  lemma StepSafe(s: System, step: Step)
    requires Safe(s) && Enabled(s, step)
    ensures Safe(Next(s, step)) && |Next(s, step).clients| == |s.clients|
  {
    match step {
      case Round(i, queued, hot) => RoundSafe(s, i, queued, hot);
      case Collect(k) => StagesSafe(s, Next(s, step).live);
      case Drain(m) => StagesSafe(s, Next(s, step).live);
      case Respond(k) => RespondSafe(s, k);
      case CacheResponse(i, m) =>
        ReplyOk(s.clients[i], m);
        assert BuffersExact(Next(s, step)) by { assert BuffersExact(s); }
        forall k | 0 <= k < |s.live| ensures RequestOk(Next(s, step), k) { assert RequestOk(s, k); }
    }
  }

  /** A drain answers everything the worker has collected, and nothing else. */
  lemma DrainAnswers(s: System, m: nat, k: nat)
    requires k < |s.live|
    ensures var r, r' := s.live[k], Next(s, Drain(m)).live[k];
            && r'.from == r.from && r'.to == r.to && r'.ops == r.ops
            && (r'.stage != r.stage <==> r.to == m && r.stage.Collected?)
            && (r.to == m ==> !r'.stage.Collected?) && (r'.stage != r.stage ==> r'.stage.Answered?)
  {
  }

  predicate Runs(s: System, steps: seq<Step>)
    decreases |steps|
  {
    steps == [] || (Enabled(s, steps[0]) && Runs(Next(s, steps[0]), steps[1..]))
  }

  function Final(s: System, steps: seq<Step>): System
    requires Runs(s, steps)
    decreases |steps|
  {
    if steps == [] then s else Final(Next(s, steps[0]), steps[1..])
  }

  lemma {:induction false} RunSafe(s: System, steps: seq<Step>)
    requires Safe(s) && Runs(s, steps)
    ensures Safe(Final(s, steps)) && |Final(s, steps).clients| == |s.clients|
    decreases |steps|
  {
    if steps == [] {
    } else {
      StepSafe(s, steps[0]);
      RunSafe(Next(s, steps[0]), steps[1..]);
    }
  }

  lemma RunsCons(s: System, step: Step, rest: seq<Step>)
    requires Enabled(s, step) && Runs(Next(s, step), rest)
    ensures Runs(s, [step] + rest) && Final(s, [step] + rest) == Final(Next(s, step), rest)
  {
    assert ([step] + rest)[1..] == rest;
  }

  /** Whatever else happens or not, a request under way can be collected and answered, which frees its buffer. */
  lemma RequestFinishes(s: System, k: nat) returns (steps: seq<Step>)
    requires Safe(s) && k < |s.live| && s.live[k].stage.InFlight?
    ensures Runs(s, steps) && |Final(s, steps).clients| == |s.clients|
    ensures s.live[k].from < |s.clients| && s.live[k].to !in Final(s, steps).clients[s.live[k].from].data
  {
    var r := s.live[k];
    assert RequestOk(s, k);
    StepSafe(s, Collect(k));
    var a := Next(s, Collect(k));
    DrainAnswers(a, r.to, k);
    StepSafe(a, Drain(r.to));
    var b := Next(a, Drain(r.to));
    AnswerWelcome(b, k);
    RunsCons(b, Respond(k), []);
    RunsCons(a, Drain(r.to), [Respond(k)] + []);
    RunsCons(s, Collect(k), [Drain(r.to)] + ([Respond(k)] + []));
    steps := [Collect(k)] + ([Drain(r.to)] + ([Respond(k)] + []));
  }

  /** In every run, a round that comes to send finds every data buffer it needs free. */
  lemma DataBuffersAlwaysFree(machines: nat, steps: seq<Step>, i: nat, queued: seq<nat>, hot: bool)
    requires Runs(Initial(machines), steps) && Enabled(Final(Initial(machines), steps), Round(i, queued, hot))
    ensures BuffersFree(Final(Initial(machines), steps).clients[i], Targets(queued, i, |queued|), hot)
  {
    RunSafe(Initial(machines), steps);
    RoundSafe(Final(Initial(machines), steps), i, queued, hot);
  }

  // ----- What a worker holds between drains -----

  /** The requests a worker has collected since it last drained. */
  function Holding(live: seq<Request>, m: nat): seq<Request> {
    if live == [] then []
    else Holding(live[..|live| - 1], m)
         + if live[|live| - 1].to == m && live[|live| - 1].stage.Collected? then [live[|live| - 1]] else []
  }

  function Ops(requests: seq<Request>): nat {
    if requests == [] then 0 else Ops(requests[..|requests| - 1]) + requests[|requests| - 1].ops
  }

  function Senders(live: seq<Request>, m: nat): set<nat> {
    if live == [] then {}
    else Senders(live[..|live| - 1], m)
         + if live[|live| - 1].to == m && live[|live| - 1].stage.Collected? then {live[|live| - 1].from} else {}
  }

  lemma {:induction false} SenderOf(live: seq<Request>, m: nat, i: nat) returns (k: nat)
    requires i in Senders(live, m)
    ensures k < |live| && live[k].from == i && live[k].to == m
  {
    var n := |live| - 1;
    if live[n].to == m && live[n].stage.Collected? && live[n].from == i {
      k := n;
    } else {
      k := SenderOf(live[..n], m, i);
    }
  }

  lemma {:induction false} HoldingSize(live: seq<Request>, m: nat)
    requires Distinct(live)
    ensures |Holding(live, m)| == |Senders(live, m)|
  {
    if live == [] {
    } else {
      var n := |live| - 1;
      HoldingSize(live[..n], m);
      if live[n].to == m && live[n].stage.Collected? && live[n].from in Senders(live[..n], m) {
        var k := SenderOf(live[..n], m, live[n].from);
        assert false;
      }
    }
  }

  predicate Small(requests: seq<Request>) {
    forall k :: 0 <= k < |requests| ==> requests[k].ops <= KVS_BATCH
  }

  lemma {:induction false} OpsBound(requests: seq<Request>)
    requires Small(requests)
    ensures Ops(requests) <= KVS_BATCH * |requests|
  {
    if requests == [] {
    } else {
      OpsBound(requests[..|requests| - 1]);
    }
  }

  lemma {:induction false} HoldingSmall(live: seq<Request>, m: nat)
    requires Small(live)
    ensures Small(Holding(live, m))
  {
    if live == [] {
    } else {
      HoldingSmall(live[..|live| - 1], m);
    }
  }

  lemma {:induction false} BoundedSet(r: set<nat>, n: nat)
    requires forall m :: m in r ==> m < n
    ensures |r| <= n
  {
    if n == 0 {
      assert r == {};
    } else {
      BoundedSet(r - {n - 1}, n - 1);
      assert r <= (r - {n - 1}) + {n - 1};
      if n - 1 in r { assert r == (r - {n - 1}) + {n - 1}; } else { assert r == r - {n - 1}; }
    }
  }

  /**
   In every run a worker collects at most one request from each other machine between drains, so its request table
   and its operation array are large enough.
   */
  lemma WorkerBound(machines: nat, steps: seq<Step>, m: nat)
    requires Runs(Initial(machines), steps) && m < machines
    ensures var held := Holding(Final(Initial(machines), steps).live, m);
            |held| <= machines - 1 && Ops(held) <= KVS_BATCH * (machines - 1)
  {
    RunSafe(Initial(machines), steps);
    var s := Final(Initial(machines), steps);
    forall k | 0 <= k < |s.live| ensures s.live[k].ops <= KVS_BATCH { assert RequestOk(s, k); }
    HoldingSize(s.live, m);
    HoldingSmall(s.live, m);
    OpsBound(Holding(s.live, m));
    var senders := Senders(s.live, m);
    forall i | i in senders ensures i < machines && i != m {
      var k := SenderOf(s.live, m, i);
      assert RequestOk(s, k);
    }
    BoundedSet(senders + {m}, machines);
    assert |senders + {m}| == |senders| + 1;
  }

  /** With the configured sizes, the worker's arrays never overflow. */
  lemma WorkerArraysFit(steps: seq<Step>, m: nat)
    requires Runs(Initial(MACHINES), steps) && m < MACHINES
    ensures var held := Holding(Final(Initial(MACHINES), steps).live, m);
            |held| < MACHINES && Ops(held) <= WORKER_MAX_BATCH
  {
    WorkerBound(MACHINES, steps, m);
  }
}
