/**
 One round over a client's batch: hits are retired, cold requests are queued for their home machine, at most a
 fixed number for each, and everything else moves to the next round's buffer.
 */
module ColdBatch {
  import opened Config

  /**
   `Served` is a read that hit or a write already broadcast, `Waiting` a hot write still to be broadcast, and
   `Cold` a request whose key is not cached.
   */
  datatype State = Served | Waiting | Cold

  datatype Slot = Slot(id: nat, home: nat, state: State)

  datatype Fate = Retired | Queued(machine: nat) | Carried

  /** `full` is set where the round gives up because no machine has room. */
  datatype Round = Round(queues: seq<seq<Slot>>, next: seq<Slot>, retired: seq<Slot>, sent: nat, full: bool)

  predicate HomesOk(machines: nat, self: nat, ops: seq<Slot>) {
    forall i :: 0 <= i < |ops| ==> ops[i].home < machines && (ops[i].state.Cold? ==> ops[i].home != self)
  }

  function FateOf(r: Round, slot: Slot): Fate
    requires slot.home < |r.queues|
  {
    match slot.state
    case Served => Retired
    case Waiting => Carried
    case Cold =>
      if r.full || r.sent >= WINDOW || |r.queues[slot.home]| >= KVS_BATCH then Carried else Queued(slot.home)
  }

  function Place(r: Round, slot: Slot): (r': Round)
    requires slot.home < |r.queues|
    ensures |r'.queues| == |r.queues|
  {
    match FateOf(r, slot)
    case Retired => r.(retired := r.retired + [slot])
    case Queued(m) => r.(queues := r.queues[slot.home := r.queues[slot.home] + [slot]], sent := r.sent + 1)
    case Carried =>
      var stuck := slot.state.Cold? && r.sent < WINDOW && r.sent >= KVS_BATCH * |r.queues|;
      r.(next := r.next + [slot], full := r.full || stuck)
  }

  function PlaceAll(machines: nat, self: nat, ops: seq<Slot>): (r: Round)
    requires HomesOk(machines, self, ops)
    ensures |r.queues| == machines
  {
    if ops == [] then Round(seq(machines, _ => []), [], [], 0, false)
    else Place(PlaceAll(machines, self, ops[..|ops| - 1]), ops[|ops| - 1])
  }

  // ----- Conservation -----

  function FateAt(machines: nat, self: nat, ops: seq<Slot>, i: nat): Fate
    requires HomesOk(machines, self, ops) && i < |ops|
  {
    FateOf(PlaceAll(machines, self, ops[..i]), ops[i])
  }

  /** The slots that met this fate, in their original order. */
  ghost function Pick(machines: nat, self: nat, ops: seq<Slot>, n: nat, fate: Fate): seq<Slot>
    requires HomesOk(machines, self, ops) && n <= |ops|
  {
    if n == 0 then []
    else
      Pick(machines, self, ops, n - 1, fate)
      + if FateAt(machines, self, ops, n - 1) == fate then [ops[n - 1]] else []
  }

  /** A slot goes to the end of the list of its fate, and to no other. */
  lemma PlaceAdds(r: Round, slot: Slot)
    requires slot.home < |r.queues|
    ensures var r', fate := Place(r, slot), FateOf(r, slot);
            && r'.retired == r.retired + (if fate == Retired then [slot] else [])
            && r'.next == r.next + (if fate == Carried then [slot] else [])
            && (forall m :: 0 <= m < |r.queues| ==>
                  r'.queues[m] == r.queues[m] + if fate == Queued(m) then [slot] else [])
  {
  }

  /** Every slot meets exactly one fate, and each list of the round is the slots with that fate, in order. */
  lemma {:induction false} Conservation(machines: nat, self: nat, ops: seq<Slot>, n: nat)
    requires HomesOk(machines, self, ops) && n <= |ops|
    ensures var r := PlaceAll(machines, self, ops[..n]);
            && r.retired == Pick(machines, self, ops, n, Retired)
            && r.next == Pick(machines, self, ops, n, Carried)
            && (forall m :: 0 <= m < machines ==> r.queues[m] == Pick(machines, self, ops, n, Queued(m)))
  {
    if n == 0 {
    } else {
      var before, slot := PlaceAll(machines, self, ops[..n - 1]), ops[n - 1];
      Conservation(machines, self, ops, n - 1);
      PlaceNext(machines, self, ops, n - 1);
      assert slot.home < |before.queues|;
      PlaceAdds(before, slot);
      forall m | 0 <= m < machines
        ensures Place(before, slot).queues[m] == Pick(machines, self, ops, n, Queued(m))
      {
        assert before.queues[m] == Pick(machines, self, ops, n - 1, Queued(m));
      }
    }
  }

  /** The three kinds of fate account for every slot. */
  lemma {:induction false} AllAccountedFor(machines: nat, self: nat, ops: seq<Slot>)
    requires HomesOk(machines, self, ops)
    ensures var r := PlaceAll(machines, self, ops); |r.retired| + |r.next| + r.sent == |ops|
  {
    if ops == [] {
    } else {
      AllAccountedFor(machines, self, ops[..|ops| - 1]);
    }
  }

  // ----- What a round does, without placing slots one by one -----

  /** The slots with this state and, for cold ones, this home, in order. */
  function ServedOf(ops: seq<Slot>): seq<Slot> {
    if ops == [] then []
    else ServedOf(ops[..|ops| - 1]) + if ops[|ops| - 1].state.Served? then [ops[|ops| - 1]] else []
  }

  function ColdFor(ops: seq<Slot>, home: nat): (r: seq<Slot>)
    ensures |r| == Count(ops, home)
  {
    if ops == [] then []
    else
      var last := ops[|ops| - 1];
      ColdFor(ops[..|ops| - 1], home) + if last.state.Cold? && last.home == home then [last] else []
  }

  /** The hot writes, and the cold requests that a whole batch for their machine is ahead of. */
  function LeftOf(ops: seq<Slot>): seq<Slot> {
    if ops == [] then []
    else
      var rest, last := ops[..|ops| - 1], ops[|ops| - 1];
      LeftOf(rest)
      + if last.state.Waiting? || (last.state.Cold? && Count(rest, last.home) >= KVS_BATCH) then [last] else []
  }

  /** Whatever the window, exactly the hits are retired, in order, and no more is sent than the window allows. */
  lemma {:induction false} RoundRetires(machines: nat, self: nat, ops: seq<Slot>)
    requires HomesOk(machines, self, ops)
    ensures var r := PlaceAll(machines, self, ops); r.retired == ServedOf(ops) && r.sent <= WINDOW
  {
    if ops == [] {
    } else {
      RoundRetires(machines, self, ops[..|ops| - 1]);
    }
  }

  /** A cold request is carried only if its queue is full, the window used up, or every queue's worth was sent. */
  lemma {:induction false} CarriedWhy(machines: nat, self: nat, ops: seq<Slot>, slot: Slot)
    requires HomesOk(machines, self, ops) && slot.home < machines && slot.state.Cold?
    ensures var r := PlaceAll(machines, self, ops);
            && (r.full ==> r.sent >= KVS_BATCH * machines)
            && (FateOf(r, slot) == Queued(slot.home) || FateOf(r, slot) == Carried)
            && (FateOf(r, slot) == Carried ==>
                  |r.queues[slot.home]| >= KVS_BATCH || r.sent >= WINDOW || r.sent >= KVS_BATCH * machines)
  {
    if ops == [] {
    } else {
      var n := |ops| - 1;
      CarriedWhy(machines, self, ops[..n], slot);
    }
  }

  /** The queue a machine should get: the first cold requests for it. */
  function QueueOf(ops: seq<Slot>, m: nat): seq<Slot> {
    ColdFor(ops, m)[..Min(KVS_BATCH, Count(ops, m))]
  }

  ghost predicate Split(r: Round, ops: seq<Slot>) {
    && r.retired == ServedOf(ops) && r.next == LeftOf(ops)
    && forall m :: 0 <= m < |r.queues| ==> r.queues[m] == QueueOf(ops, m)
  }

  lemma QueueSplits(ops: seq<Slot>, slot: Slot, m: nat)
    ensures var joins := slot.state.Cold? && slot.home == m && Count(ops, m) < KVS_BATCH;
            QueueOf(ops + [slot], m) == QueueOf(ops, m) + (if joins then [slot] else [])
    ensures |QueueOf(ops, m)| == Min(KVS_BATCH, Count(ops, m))
  {
    assert (ops + [slot])[..|ops|] == ops;
  }

  lemma SplitNext(r: Round, ops: seq<Slot>, slot: Slot)
    requires Split(r, ops) && !r.full && r.sent < WINDOW && slot.home < |r.queues|
    ensures Split(Place(r, slot), ops + [slot])
  {
    var all := ops + [slot];
    assert all[..|all| - 1] == ops;
    QueueSplits(ops, slot, slot.home);
    forall m | 0 <= m < |r.queues| ensures Place(r, slot).queues[m] == QueueOf(all, m) {
      QueueSplits(ops, slot, m);
    }
  }

  /**
   With the configured window a round splits the batch as it should: every machine gets the first KVS_BATCH cold
   requests for it, the hits are retired, and the rest is carried over, all in their original order.
   */
  lemma {:induction false} RoundSplits(machines: nat, self: nat, ops: seq<Slot>)
    requires HomesOk(machines, self, ops) && Unblocked(machines, self)
    ensures Split(PlaceAll(machines, self, ops), ops)
  {
    if ops == [] {
    } else {
      var n := |ops| - 1;
      RoundSplits(machines, self, ops[..n]);
      NeverFull(machines, self, ops[..n]);
      assert ops[n].home < machines && ops == ops[..n] + [ops[n]];
      SplitNext(PlaceAll(machines, self, ops[..n]), ops[..n], ops[n]);
    }
  }

  // ----- What one round sends -----

  lemma {:induction false} QueueBound(machines: nat, self: nat, ops: seq<Slot>, m: nat)
    requires HomesOk(machines, self, ops) && m < machines
    ensures var r := PlaceAll(machines, self, ops); |r.queues[m]| <= KVS_BATCH && (m == self ==> r.queues[m] == [])
  {
    if ops == [] {
    } else {
      QueueBound(machines, self, ops[..|ops| - 1], m);
    }
  }

  function Count(ops: seq<Slot>, home: nat): nat {
    if ops == [] then 0
    else Count(ops[..|ops| - 1], home) + if ops[|ops| - 1].state.Cold? && ops[|ops| - 1].home == home then 1 else 0
  }

  function Min(a: nat, b: nat): nat {
    if a < b then a else b
  }

  function Lengths(queues: seq<seq<Slot>>, n: nat): nat
    requires n <= |queues|
  {
    if n == 0 then 0 else Lengths(queues, n - 1) + |queues[n - 1]|
  }

  lemma {:induction false} LengthsUpdate(queues: seq<seq<Slot>>, n: nat, h: nat, slot: Slot)
    requires n <= |queues| && h < |queues|
    ensures Lengths(queues[h := queues[h] + [slot]], n) == Lengths(queues, n) + if h < n then 1 else 0
  {
    if n == 0 {
    } else {
      LengthsUpdate(queues, n - 1, h, slot);
    }
  }

  lemma {:induction false} LengthsZero(queues: seq<seq<Slot>>, n: nat)
    requires n <= |queues| && forall m :: 0 <= m < |queues| ==> queues[m] == []
    ensures Lengths(queues, n) == 0
  {
    if n == 0 {
    } else {
      LengthsZero(queues, n - 1);
    }
  }

  lemma {:induction false} LengthsBound(queues: seq<seq<Slot>>, n: nat, self: nat)
    requires n <= |queues| && self < |queues| && queues[self] == []
    requires forall m :: 0 <= m < |queues| ==> |queues[m]| <= KVS_BATCH
    ensures Lengths(queues, n) <= KVS_BATCH * if self < n then n - 1 else n
  {
    if n == 0 {
    } else {
      LengthsBound(queues, n - 1, self);
    }
  }

  /** The window is larger than all the queues together, so a round never stops before the end of the batch. */
  ghost predicate Unblocked(machines: nat, self: nat) {
    self < machines && KVS_BATCH * (machines - 1) < WINDOW
  }

  ghost predicate QueuesOk(self: nat, r: Round) {
    && self < |r.queues| && r.queues[self] == []
    && (forall m :: 0 <= m < |r.queues| ==> |r.queues[m]| <= KVS_BATCH)
    && r.sent == Lengths(r.queues, |r.queues|)
  }

  lemma QueuesKept(machines: nat, self: nat, r: Round, slot: Slot)
    requires Unblocked(machines, self) && |r.queues| == machines && QueuesOk(self, r) && !r.full
    requires slot.home < machines && (slot.state.Cold? ==> slot.home != self)
    ensures QueuesOk(self, Place(r, slot)) && !Place(r, slot).full && r.sent < WINDOW
  {
    LengthsBound(r.queues, machines, self);
    LengthsUpdate(r.queues, machines, slot.home, slot);
  }

  lemma {:induction false} NeverFull(machines: nat, self: nat, ops: seq<Slot>)
    requires HomesOk(machines, self, ops) && Unblocked(machines, self)
    ensures var r := PlaceAll(machines, self, ops); QueuesOk(self, r) && !r.full && r.sent < WINDOW
  {
    if ops == [] {
      LengthsZero(PlaceAll(machines, self, ops).queues, machines);
    } else {
      NeverFull(machines, self, ops[..|ops| - 1]);
      QueuesKept(machines, self, PlaceAll(machines, self, ops[..|ops| - 1]), ops[|ops| - 1]);
    }
    LengthsBound(PlaceAll(machines, self, ops).queues, machines, self);
  }

  /** A machine never queues for itself, so the queues are never all full and a round never gives up on that account. */
  lemma {:induction false} NeverStuck(machines: nat, self: nat, ops: seq<Slot>)
    requires HomesOk(machines, self, ops) && self < machines
    ensures var r := PlaceAll(machines, self, ops); QueuesOk(self, r) && !r.full && r.sent <= KVS_BATCH * (machines - 1)
  {
    if ops == [] {
      LengthsZero(PlaceAll(machines, self, ops).queues, machines);
    } else {
      var n := |ops| - 1;
      var r := PlaceAll(machines, self, ops[..n]);
      NeverStuck(machines, self, ops[..n]);
      assert ops[n].home < machines;
      LengthsUpdate(r.queues, machines, ops[n].home, ops[n]);
    }
    LengthsBound(PlaceAll(machines, self, ops).queues, machines, self);
  }

  lemma CountSnoc(ops: seq<Slot>, slot: Slot, home: nat)
    ensures Count(ops + [slot], home) == Count(ops, home) + if slot.state.Cold? && slot.home == home then 1 else 0
  {
    assert (ops + [slot])[..|ops|] == ops;
  }

  /** A machine's queue takes the first requests for it, and the others are carried over. */
  lemma {:induction false} FirstComeFirstServed(machines: nat, self: nat, ops: seq<Slot>, home: nat)
    requires HomesOk(machines, self, ops) && Unblocked(machines, self) && home < machines
    ensures var r := PlaceAll(machines, self, ops);
            && |r.queues[home]| == Min(KVS_BATCH, Count(ops, home))
            && Count(r.next, home) + |r.queues[home]| == Count(ops, home)
  {
    if ops == [] {
    } else {
      var n := |ops| - 1;
      var r := PlaceAll(machines, self, ops[..n]);
      FirstComeFirstServed(machines, self, ops[..n], home);
      NeverFull(machines, self, ops[..n]);
      CountSnoc(r.next, ops[n], home);
    }
  }

  // ----- No starvation -----

  /** How many requests for the same machine are ahead of this one. */
  function Rank(ops: seq<Slot>, i: nat): nat
    requires i < |ops|
  {
    Count(ops[..i], ops[i].home)
  }

  /** Where a carried slot goes in the next buffer. */
  function NextIndex(machines: nat, self: nat, ops: seq<Slot>, i: nat): nat
    requires HomesOk(machines, self, ops) && i < |ops|
  {
    |PlaceAll(machines, self, ops[..i]).next|
  }

  lemma {:induction false} NextGrows(machines: nat, self: nat, ops: seq<Slot>, n: nat)
    requires HomesOk(machines, self, ops) && n <= |ops|
    ensures PlaceAll(machines, self, ops[..n]).next <= PlaceAll(machines, self, ops).next
  {
    if n < |ops| {
      NextGrows(machines, self, ops[..|ops| - 1], n);
      assert ops[..|ops| - 1][..n] == ops[..n];
    } else {
      assert ops[..n] == ops;
    }
  }

  lemma PlacedThere(machines: nat, self: nat, ops: seq<Slot>, i: nat)
    requires HomesOk(machines, self, ops) && i < |ops| && FateAt(machines, self, ops, i).Carried?
    ensures var next := PlaceAll(machines, self, ops).next;
            var j := NextIndex(machines, self, ops, i);
            j < |next| && next[j] == ops[i] && next[..j] == PlaceAll(machines, self, ops[..i]).next
  {
    assert ops[..i + 1][..i] == ops[..i];
    NextGrows(machines, self, ops, i + 1);
    NextGrows(machines, self, ops, i);
  }

  /** A cold request is sent if fewer than a batch are ahead of it, and otherwise gains a whole batch of places. */
  lemma SentOrCloser(machines: nat, self: nat, ops: seq<Slot>, i: nat)
    requires HomesOk(machines, self, ops) && Unblocked(machines, self) && i < |ops| && ops[i].state.Cold?
    ensures Rank(ops, i) < KVS_BATCH <==> FateAt(machines, self, ops, i) == Queued(ops[i].home)
    ensures Rank(ops, i) >= KVS_BATCH ==>
              var next := PlaceAll(machines, self, ops).next;
              var j := NextIndex(machines, self, ops, i);
              j < |next| && next[j] == ops[i] && Rank(next, j) + KVS_BATCH == Rank(ops, i)
  {
    FirstComeFirstServed(machines, self, ops[..i], ops[i].home);
    NeverFull(machines, self, ops[..i]);
    if Rank(ops, i) >= KVS_BATCH { PlacedThere(machines, self, ops, i); }
  }

  /** The next batch: the carried slots first, with the cold ones untouched, then new ones. */
  predicate Follows(next: seq<Slot>, ops: seq<Slot>) {
    && |next| <= |ops|
    && forall i :: 0 <= i < |next| ==> if next[i].state.Cold? then ops[i] == next[i] else !ops[i].state.Cold?
  }

  lemma {:induction false} FollowsCount(next: seq<Slot>, ops: seq<Slot>, j: nat, home: nat)
    requires Follows(next, ops) && j <= |next|
    ensures Count(ops[..j], home) == Count(next[..j], home)
  {
    if j == 0 {
    } else {
      FollowsCount(next, ops, j - 1, home);
      assert ops[..j][..j - 1] == ops[..j - 1] && next[..j][..j - 1] == next[..j - 1];
    }
  }

  /** Consecutive batches of one client. */
  predicate Rounds(machines: nat, self: nat, batches: seq<seq<Slot>>) {
    && (forall t :: 0 <= t < |batches| ==> HomesOk(machines, self, batches[t]))
    && (forall t :: 0 <= t < |batches| - 1 ==> Follows(PlaceAll(machines, self, batches[t]).next, batches[t + 1]))
  }

  /** Where the slot at `i` of the first batch is `t` batches later, while it keeps being carried. */
  function IndexAt(machines: nat, self: nat, batches: seq<seq<Slot>>, i: nat, t: nat): nat
    requires Rounds(machines, self, batches) && t < |batches| && i < |batches[0]|
    decreases t
  {
    if t == 0 then i else
      var j := IndexAt(machines, self, batches, i, t - 1);
      if j < |batches[t - 1]| then NextIndex(machines, self, batches[t - 1], j) else 0
  }

  lemma {:induction false} Waits(machines: nat, self: nat, batches: seq<seq<Slot>>, i: nat, t: nat)
    requires Rounds(machines, self, batches) && Unblocked(machines, self) && t < |batches|
    requires i < |batches[0]| && batches[0][i].state.Cold? && KVS_BATCH * t <= Rank(batches[0], i)
    ensures var j := IndexAt(machines, self, batches, i, t);
            && j < |batches[t]| && batches[t][j] == batches[0][i]
            && Rank(batches[t], j) + KVS_BATCH * t == Rank(batches[0], i)
  {
    if t == 0 {
    } else {
      Waits(machines, self, batches, i, t - 1);
      var j := IndexAt(machines, self, batches, i, t - 1);
      assert HomesOk(machines, self, batches[t - 1]);
      SentOrCloser(machines, self, batches[t - 1], j);
      var next := PlaceAll(machines, self, batches[t - 1]).next;
      assert Follows(next, batches[t]) by { assert t == (t - 1) + 1; }
      FollowsCount(next, batches[t], NextIndex(machines, self, batches[t - 1], j), batches[0][i].home);
    }
  }

  lemma {:induction false} CountAtMost(ops: seq<Slot>, home: nat)
    ensures Count(ops, home) <= |ops|
  {
    if ops == [] {
    } else {
      CountAtMost(ops[..|ops| - 1], home);
    }
  }

  /**
   No starvation: a cold request with `k` others for its machine ahead of it is carried for `k / KVS_BATCH` rounds
   and sent in the next one, so always within six rounds of entering a batch.
   */
  lemma NoStarvation(machines: nat, self: nat, batches: seq<seq<Slot>>, i: nat)
    requires Rounds(machines, self, batches) && Unblocked(machines, self) && |batches| > 0 && |batches[0]| <= BATCH
    requires i < |batches[0]| && batches[0][i].state.Cold?
    ensures Rank(batches[0], i) / KVS_BATCH < BATCH / KVS_BATCH
    ensures var t := Rank(batches[0], i) / KVS_BATCH;
            t < |batches| ==>
              var j := IndexAt(machines, self, batches, i, t);
              && HomesOk(machines, self, batches[t]) && j < |batches[t]| && batches[t][j] == batches[0][i]
              && FateAt(machines, self, batches[t], j) == Queued(batches[0][i].home)
  {
    var t := Rank(batches[0], i) / KVS_BATCH;
    CountAtMost(batches[0][..i], batches[0][i].home);
    if t < |batches| {
      Waits(machines, self, batches, i, t);
      SentOrCloser(machines, self, batches[t], IndexAt(machines, self, batches, i, t));
    }
  }

  // ----- The loops -----

  lemma PlaceNext(machines: nat, self: nat, ops: seq<Slot>, i: nat)
    requires HomesOk(machines, self, ops) && i < |ops|
    ensures PlaceAll(machines, self, ops[..i + 1]) == Place(PlaceAll(machines, self, ops[..i]), ops[i])
  {
    assert ops[..i + 1][..i] == ops[..i];
  }

  /** A hit, or a slot left over once no more can be sent, is retired or carried. */
  lemma PlaceUnsent(r: Round, slot: Slot)
    requires slot.home < |r.queues| && (slot.state.Cold? ==> r.full || r.sent >= WINDOW)
    ensures Place(r, slot)
            == if slot.state.Served? then r.(retired := r.retired + [slot]) else r.(next := r.next + [slot])
  {
  }

  /** Runs over the hits up to the next cold request. */
  method HitBookkeeping(ops: seq<Slot>, start: nat, ghost machines: nat, ghost self: nat, ghost r: Round)
    returns (i: nat, carried: seq<Slot>, served: seq<Slot>)
    requires start <= |ops| && HomesOk(machines, self, ops) && PlaceAll(machines, self, ops[..start]) == r
    ensures start <= i <= |ops| && (i < |ops| ==> ops[i].state.Cold?)
    ensures PlaceAll(machines, self, ops[..i]) == r.(next := r.next + carried, retired := r.retired + served)
  {
    i, carried, served := start, [], [];
    while i < |ops| && !ops[i].state.Cold?
      invariant start <= i <= |ops|
      invariant PlaceAll(machines, self, ops[..i]) == r.(next := r.next + carried, retired := r.retired + served)
    {
      PlaceNext(machines, self, ops, i);
      PlaceUnsent(PlaceAll(machines, self, ops[..i]), ops[i]);
      if ops[i].state.Served? { served := served + [ops[i]]; } else { carried := carried + [ops[i]]; }
      i := i + 1;
    }
  }

  /** Once no more can be sent, the remaining hits are retired and the rest carried over. */
  method RunThroughRest(ops: seq<Slot>, start: nat, ghost machines: nat, ghost self: nat, ghost r: Round)
    returns (carried: seq<Slot>, served: seq<Slot>)
    requires start <= |ops| && HomesOk(machines, self, ops) && PlaceAll(machines, self, ops[..start]) == r
    requires start < |ops| ==> r.full || r.sent >= WINDOW
    ensures PlaceAll(machines, self, ops) == r.(next := r.next + carried, retired := r.retired + served)
  {
    carried, served := [], [];
    for i := start to |ops|
      invariant PlaceAll(machines, self, ops[..i]) == r.(next := r.next + carried, retired := r.retired + served)
    {
      PlaceNext(machines, self, ops, i);
      PlaceUnsent(PlaceAll(machines, self, ops[..i]), ops[i]);
      if ops[i].state.Served? { served := served + [ops[i]]; } else { carried := carried + [ops[i]]; }
    }
    assert ops[..|ops|] == ops;
  }

  /** The per-machine counters are the queue lengths. */
  predicate Counted(queues: seq<seq<Slot>>, outstanding: seq<nat>) {
    |queues| == |outstanding| && forall m :: 0 <= m < |queues| ==> outstanding[m] == |queues[m]| <= KVS_BATCH
  }

  /** A cold request joins its machine's queue, or is skipped when that queue is full. */
  method IssueRemote(slot: Slot, r: Round, outstanding: seq<nat>) returns (r': Round, outstanding': seq<nat>)
    requires Counted(r.queues, outstanding) && slot.home < |r.queues| && slot.state.Cold? && r.sent < WINDOW && !r.full
    ensures r' == Place(r, slot) && Counted(r'.queues, outstanding')
  {
    var home := slot.home;
    outstanding' := outstanding[home := outstanding[home] + 1];
    if outstanding'[home] > KVS_BATCH {
      outstanding' := outstanding'[home := outstanding'[home] - 1];
      r' := r.(next := r.next + [slot], full := r.sent >= KVS_BATCH * |r.queues|);
    } else {
      r' := r.(queues := r.queues[home := r.queues[home] + [slot]], sent := r.sent + 1);
    }
  }

  /** Hits and cold requests in turn until the window is used up or no machine has room, then the rest. */
  method HandleColdRequests(machines: nat, self: nat, ops: seq<Slot>) returns (r: Round)
    requires HomesOk(machines, self, ops)
    ensures r == PlaceAll(machines, self, ops)
  {
    r := Round(seq(machines, _ => []), [], [], 0, false);
    var outstanding := seq(machines, _ => 0);
    var i := 0;
    while r.sent < WINDOW && i < |ops| && !r.full
      invariant i <= |ops| && r == PlaceAll(machines, self, ops[..i]) && Counted(r.queues, outstanding)
      decreases |ops| - i
    {
      var carried, served;
      i, carried, served := HitBookkeeping(ops, i, machines, self, r);
      r := r.(next := r.next + carried, retired := r.retired + served);
      if i >= |ops| { break; }
      PlaceNext(machines, self, ops, i);
      r, outstanding := IssueRemote(ops[i], r, outstanding);
      i := i + 1;
    }
    var carried, served := RunThroughRest(ops, i, machines, self, r);
    r := r.(next := r.next + carried, retired := r.retired + served);
  }
}
