/**
 One client's requests in transit. A round may wait for all of them, then sends the cached writes to every other
 machine and the cold requests to their homes.
 */
module Client {

  /**
   `data` and `cache` are the machines whose request buffer is in use; `sent` says whether the previous round
   sent any data request.
   */
  datatype Client = Client(data: set<nat>, cache: set<nat>, inTransit: nat, sent: bool)

  const IDLE := Client({}, {}, 0, false)

  /** A round waits for every response, but only if the round before it sent data. */
  predicate MaySend(c: Client) {
    c.sent ==> c.inTransit == 0
  }

  /** What the buffer assertions demand of a round. */
  predicate BuffersFree(c: Client, targets: set<nat>, hot: bool) {
    targets !! c.data && (hot ==> c.cache == {})
  }

  function Broadcast(c: Client, others: set<nat>, hot: bool): Client {
    if hot then c.(cache := others, inTransit := c.inTransit + |others|) else c
  }

  function Send(c: Client, targets: set<nat>): Client {
    c.(data := c.data + targets, inTransit := c.inTransit + |targets|, sent := targets != {})
  }

  function DataReply(c: Client, m: nat): Client
    requires m in c.data && c.inTransit > 0
  {
    c.(data := c.data - {m}, inTransit := c.inTransit - 1)
  }

  function CacheReply(c: Client, m: nat): Client
    requires m in c.cache && c.inTransit > 0
  {
    c.(cache := c.cache - {m}, inTransit := c.inTransit - 1)
  }

  /** Nothing is in transit that is not in some buffer, and data is outstanding only just after it was sent. */
  ghost predicate Ok(c: Client) {
    c.inTransit == |c.data| + |c.cache| && (!c.sent ==> c.data == {})
  }

  /** Once a round may send, every data buffer is free, whatever it has to send. */
  lemma DataBuffersFree(c: Client)
    requires Ok(c) && MaySend(c)
    ensures c.data == {}
  {
    if c.sent { assert |c.data| == 0; }
  }

  /** A round goes ahead exactly when no data is outstanding, nor a broadcast of a round that sent data too. */
  lemma GoesAheadIff(c: Client)
    requires Ok(c)
    ensures MaySend(c) <==> c.data == {} && (c.sent ==> c.cache == {})
  {
    if MaySend(c) { DataBuffersFree(c); }
  }

  lemma RoundOk(c: Client, others: set<nat>, targets: set<nat>, hot: bool)
    requires Ok(c) && MaySend(c) && (hot ==> c.cache == {})
    ensures BuffersFree(c, targets, hot) && Ok(Send(Broadcast(c, others, hot), targets))
  {
    DataBuffersFree(c);
    assert {} + targets == targets;
  }

  lemma ReplyOk(c: Client, m: nat)
    requires Ok(c)
    ensures m in c.data ==> c.inTransit > 0 && Ok(DataReply(c, m))
    ensures m in c.cache ==> c.inTransit > 0 && Ok(CacheReply(c, m))
  {
    if m in c.data { assert c.data == (c.data - {m}) + {m}; }
    if m in c.cache { assert c.cache == (c.cache - {m}) + {m}; }
  }

  // ----- The cache-buffer assertion -----

  /** Whether a round sends data, and whether it broadcasts hot writes. */
  datatype Plan = Plan(targets: set<nat>, hot: bool)

  /** Replies that happen to arrive between two rounds. */
  datatype Arrivals = Arrivals(data: set<nat>, cache: set<nat>)

  ghost function Deliver(c: Client, a: Arrivals): Client {
    var data, cache := c.data - a.data, c.cache - a.cache;
    c.(data := data, cache := cache, inTransit := |data| + |cache|)
  }

  /** The wait before sending lets every reply in. */
  ghost function Wait(c: Client): Client {
    if c.sent then c.(data := {}, cache := {}, inTransit := 0) else c
  }

  /** The client as it comes to send round `t`, with these replies arriving after each earlier round. */
  ghost function Before(others: set<nat>, plans: seq<Plan>, arrivals: seq<Arrivals>, t: nat): Client
    requires t <= |plans| == |arrivals|
  {
    if t == 0 then IDLE else
      var c := Before(others, plans, arrivals, t - 1);
      Wait(Deliver(Send(Broadcast(c, others, plans[t - 1].hot), plans[t - 1].targets), arrivals[t - 1]))
  }

  /** Between any two rounds that broadcast, one sends data (the first of the two counts, the second does not). */
  ghost predicate Separated(plans: seq<Plan>) {
    forall t, u :: 0 <= t < u < |plans| && plans[t].hot && plans[u].hot ==> DataBetween(plans, t, u)
  }

  ghost predicate DataBetween(plans: seq<Plan>, t: nat, u: nat)
    requires t <= u <= |plans|
  {
    exists s :: t <= s < u && plans[s].targets != {}
  }

  /** No hot write was broadcast since data was last sent. */
  ghost predicate Quiet(plans: seq<Plan>, u: nat)
    requires u <= |plans|
  {
    forall t :: 0 <= t < u && plans[t].hot ==> DataBetween(plans, t, u)
  }

  lemma {:induction false} QuietIsFree(others: set<nat>, plans: seq<Plan>, arrivals: seq<Arrivals>, u: nat)
    requires u <= |plans| == |arrivals| && Quiet(plans, u)
    ensures Before(others, plans, arrivals, u).cache == {}
  {
    if u > 0 && plans[u - 1].targets == {} {
      assert !DataBetween(plans, u - 1, u);
      forall t | 0 <= t < u - 1 && plans[t].hot ensures DataBetween(plans, t, u - 1) {
        assert DataBetween(plans, t, u);
      }
      QuietIsFree(others, plans, arrivals, u - 1);
    }
  }

  /** With no reply in time, a broadcast stays outstanding until a round has sent data. */
  lemma {:induction false} StaysOutstanding(others: set<nat>, plans: seq<Plan>, arrivals: seq<Arrivals>, t: nat, u: nat)
    requires t < u <= |plans| == |arrivals| && plans[t].hot && !DataBetween(plans, t, u)
    requires forall s :: 0 <= s < |arrivals| ==> arrivals[s] == Arrivals({}, {})
    ensures Before(others, plans, arrivals, u).cache == others
  {
    assert plans[u - 1].targets == {};
    if u > t + 1 { StaysOutstanding(others, plans, arrivals, t, u - 1); }
  }

  /** However the replies are timed, a round that broadcasts finds the cache buffers free. */
  ghost predicate AlwaysFree(others: set<nat>, plans: seq<Plan>) {
    forall arrivals: seq<Arrivals>, u :: |arrivals| == |plans| && 0 <= u < |plans| && plans[u].hot ==>
      Before(others, plans, arrivals, u).cache == {}
  }

  /**
   The assertion that cache buffers are free is not an invariant: it holds for every timing of the replies exactly
   when some round sends data between any two that broadcast.
   */
  lemma CacheBuffersFreeIff(others: set<nat>, plans: seq<Plan>)
    requires others != {}
    ensures AlwaysFree(others, plans) <==> Separated(plans)
  {
    if Separated(plans) {
      forall arrivals: seq<Arrivals>, u | |arrivals| == |plans| && 0 <= u < |plans| && plans[u].hot
        ensures Before(others, plans, arrivals, u).cache == {}
      {
        assert Quiet(plans, u);
        QuietIsFree(others, plans, arrivals, u);
      }
    } else {
      var t, u :| 0 <= t < u < |plans| && plans[t].hot && plans[u].hot && !DataBetween(plans, t, u);
      var late := seq(|plans|, _ => Arrivals({}, {}));
      StaysOutstanding(others, plans, late, t, u);
      assert Before(others, plans, late, u).cache != {};
    }
  }

  /** Two rounds with hot writes and no cold request are enough to break it. */
  lemma TwoHotRounds(others: set<nat>)
    requires others != {}
    ensures !AlwaysFree(others, [Plan({}, true), Plan({}, true)])
  {
    var plans := [Plan({}, true), Plan({}, true)];
    assert !DataBetween(plans, 0, 1);
    CacheBuffersFreeIff(others, plans);
  }

  // ----- The client's context -----

  ghost function Flags(used: seq<bool>): (r: set<nat>) {
    set m: nat | m < |used| && used[m]
  }

  lemma FlagsSet(used: seq<bool>, m: nat)
    requires m < |used|
    ensures Flags(used[m := true]) == Flags(used) + {m}
    ensures Flags(used[m := false]) == Flags(used) - {m}
  {
  }

  /** The machines below `n`, other than this one, that requests are queued for. */
  function Targets(queued: seq<nat>, self: nat, n: nat): set<nat>
    requires n <= |queued|
  {
    if n == 0 then {}
    else Targets(queued, self, n - 1) + if n - 1 != self && queued[n - 1] > 0 then {n - 1} else {}
  }

  lemma {:induction false} TargetsAre(queued: seq<nat>, self: nat, n: nat, m: nat)
    requires n <= |queued|
    ensures m in Targets(queued, self, n) <==> m < n && m != self && queued[m] > 0
  {
    if n == 0 {
    } else {
      TargetsAre(queued, self, n - 1, m);
    }
  }

  /** The queue lengths once the machines below `n` have been served. */
  function Emptied(queued: seq<nat>, self: nat, n: nat): (r: seq<nat>)
    ensures |r| == |queued|
  {
    seq(|queued|, k requires 0 <= k < |queued| => if k < n && k != self then 0 else queued[k])
  }

  lemma TargetsNext(data: set<nat>, queued: seq<nat>, self: nat, m: nat)
    requires m < |queued|
    ensures Emptied(queued, self, m)[m] == queued[m]
    ensures Emptied(queued, self, m + 1)
            == if m != self && queued[m] > 0 then Emptied(queued, self, m)[m := 0] else Emptied(queued, self, m)
    ensures var now, later := Targets(queued, self, m), Targets(queued, self, m + 1);
            if m != self && queued[m] > 0
            then data + now + {m} == data + later && |later| == |now| + 1 && later != {}
            else later == now
  {
    TargetsAre(queued, self, m, m);
  }

  class ClientContext {
    const machines: nat
    const self: nat
    const idx: array<nat>
    const bufferUsed: array<bool>
    const cacheBufferUsed: array<bool>
    var reqsInTransit: nat
    var sent: bool

    ghost predicate Valid()
      reads this
    {
      && self < machines && idx.Length == bufferUsed.Length == cacheBufferUsed.Length == machines
      && bufferUsed != cacheBufferUsed
    }

    ghost function View(): Client
      reads this, bufferUsed, cacheBufferUsed
    {
      Client(Flags(bufferUsed[..]), Flags(cacheBufferUsed[..]), reqsInTransit, sent)
    }

    method SendTo(m: nat)
      requires Valid() && m < machines
      modifies `reqsInTransit, idx, bufferUsed
      ensures idx[..] == old(idx[..])[m := 0]
      ensures Flags(bufferUsed[..]) == Flags(old(bufferUsed[..])) + {m}
      ensures reqsInTransit == old(reqsInTransit) + 1
    {
      FlagsSet(bufferUsed[..], m);
      bufferUsed[m] := true;
      idx[m] := 0;
      reqsInTransit := reqsInTransit + 1;
      assert bufferUsed[..] == old(bufferUsed[..])[m := true];
    }

    method SendQueued(m: nat)
      requires Valid() && m < machines
      modifies `reqsInTransit, `sent, idx, bufferUsed
      ensures var now := m != self && old(idx[m]) > 0;
              && idx[..] == (if now then old(idx[..])[m := 0] else old(idx[..]))
              && Flags(bufferUsed[..]) == Flags(old(bufferUsed[..])) + (if now then {m} else {})
              && reqsInTransit == old(reqsInTransit) + (if now then 1 else 0)
              && sent == (old(sent) || now)
    {
      if m != self && idx[m] > 0 {
        SendTo(m);
        sent := true;
      }
    }

    method SendAll()
      requires Valid()
      modifies `reqsInTransit, `sent, idx, bufferUsed
      ensures Flags(bufferUsed[..]) == Flags(old(bufferUsed[..])) + Targets(old(idx[..]), self, machines)
      ensures reqsInTransit == old(reqsInTransit) + |Targets(old(idx[..]), self, machines)|
      ensures sent <==> Targets(old(idx[..]), self, machines) != {}
      ensures idx[..] == Emptied(old(idx[..]), self, machines)
    {
      ghost var queued, data, done: set<nat> := idx[..], Flags(bufferUsed[..]), {};
      sent := false;
      for m := 0 to machines
        invariant idx[..] == Emptied(queued, self, m)
        invariant done == Targets(queued, self, m)
        invariant Flags(bufferUsed[..]) == data + done && reqsInTransit == old(reqsInTransit) + |done|
        invariant sent <==> done != {}
      {
        TargetsNext(data, queued, self, m);
        done := Targets(queued, self, m + 1);
        SendQueued(m);
      }
    }

    /** Sends what is queued for each machine, whose buffers must be free, and empties the queues. */
    method SendRequests()
      requires Valid() && Targets(idx[..], self, machines) !! View().data
      modifies `reqsInTransit, `sent, idx, bufferUsed
      ensures View() == Send(old(View()), Targets(old(idx[..]), self, machines))
      ensures forall m :: 0 <= m < machines ==> idx[m] == if m == self then old(idx[m]) else 0
    {
      ghost var queued := idx[..];
      SendAll();
      assert forall m :: 0 <= m < machines ==> idx[m] == idx[..][m] && queued[m] == old(idx[m]);
    }

    /** The reply from machine `m` frees its data buffer. */
    method ReceiveResponse(m: nat)
      requires Valid() && m in View().data && reqsInTransit > 0
      modifies `reqsInTransit, bufferUsed
      ensures View() == DataReply(old(View()), m)
    {
      FlagsSet(bufferUsed[..], m);
      bufferUsed[m] := false;
      reqsInTransit := reqsInTransit - 1;
      assert bufferUsed[..] == old(bufferUsed[..])[m := false];
    }
  }
}
