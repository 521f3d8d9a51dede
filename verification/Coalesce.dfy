/**
 Refilling a batch from the trace. Reads of the hottest keys are coalesced: a read of a tracked key that has a
 read pending in this batch adds one to that operation's count instead of taking a slot of its own.
 */
module Coalesce {
  import opened Clock
  import opened Config
  import opened Sc

  const HOTTEST: nat := 20
  const MAX_COUNT: nat := 255
  const PUT_LEN: nat := 32

  datatype Command = Read(key: nat) | Write(key: nat, value: Value)

  /** For a read, `len` counts the further reads folded into it. */
  datatype Entry = Entry(op: Op, len: nat)

  /**
   `pointers[k]` is one more than the buffer index of the read that stands for key `k`, zero for none, and
   `slots[t]` is the entry that serves command `t`.
   */
  datatype Fill = Fill(entries: seq<Entry>, slots: seq<nat>, pointers: seq<nat>)

  function OpOf(c: Command): Op {
    match c
    case Read(key) => Get(key)
    case Write(key, value) => Put(key, value)
  }

  function EntryOf(c: Command): Entry {
    Entry(OpOf(c), if c.Read? then 0 else PUT_LEN)
  }

  predicate Coalesces(f: Fill, c: Command)
    requires |f.pointers| == HOTTEST
  {
    c.Read? && c.key < HOTTEST && f.pointers[c.key] != 0
  }

  /** The read would join an entry whose one-byte count is full. */
  predicate Overflows(base: nat, f: Fill, c: Command)
    requires |f.pointers| == HOTTEST
  {
    && Coalesces(f, c) && base < f.pointers[c.key] <= base + |f.entries|
    && f.entries[f.pointers[c.key] - 1 - base].len == MAX_COUNT
  }

  /** Takes one command, for a buffer whose first `base` slots are already in use. */
  function Take(base: nat, f: Fill, c: Command): (g: Fill)
    requires |f.pointers| == HOTTEST
    ensures |g.pointers| == HOTTEST
  {
    if Coalesces(f, c) then
      var j := f.pointers[c.key] - 1 - base;
      f.(entries := if 0 <= j < |f.entries|
                    then f.entries[j := f.entries[j].(len := f.entries[j].len + 1)]
                    else f.entries,
         slots := f.slots + [if j < 0 then 0 else j])
    else
      Fill(f.entries + [EntryOf(c)], f.slots + [|f.entries|],
           if c.key >= HOTTEST then f.pointers
           else f.pointers[c.key := if c.Read? then base + |f.entries| + 1 else 0])
  }

  function TakeAll(base: nat, commands: seq<Command>): (f: Fill)
    ensures |f.pointers| == HOTTEST
  {
    if commands == [] then Fill([], [], seq(HOTTEST, _ => 0))
    else Take(base, TakeAll(base, commands[..|commands| - 1]), commands[|commands| - 1])
  }

  function Ops(entries: seq<Entry>): (r: seq<Op>)
    ensures |r| == |entries|
  {
    seq(|entries|, i requires 0 <= i < |entries| => entries[i].op)
  }

  function Plain(commands: seq<Command>): (r: seq<Op>)
    ensures |r| == |commands|
  {
    seq(|commands|, i requires 0 <= i < |commands| => OpOf(commands[i]))
  }

  // ----- Same meaning -----

  /** The two ways to serve the commands agree so far, and every pending read would still see what it saw. */
  ghost predicate Agree(base: nat, commands: seq<Command>, f: Fill, lines: seq<Replica>, machine: nat) {
    var plain := Serve(lines, machine, Plain(commands));
    var merged := Serve(lines, machine, Ops(f.entries));
    && |f.slots| == |commands| && |f.pointers| == HOTTEST
    && plain.0 == merged.0
    && (forall t :: 0 <= t < |commands| ==> f.slots[t] < |f.entries| && plain.1[t] == merged.1[f.slots[t]])
    && (forall k :: 0 <= k < HOTTEST ==> PointerOk(base, f, merged, machine, k))
  }

  ghost predicate PointerOk(base: nat, f: Fill, merged: (seq<Replica>, seq<Response>), machine: nat, k: nat)
    requires |f.pointers| == HOTTEST && k < HOTTEST && |merged.1| == |f.entries|
  {
    f.pointers[k] == 0
    || (var j := f.pointers[k] - 1 - base;
        && 0 <= j < |f.entries| && f.entries[j].op == Get(k)
        && merged.1[j] == ServeOne(merged.0, machine, Get(k)).1)
  }

  lemma AgreeCoalesced(base: nat, commands: seq<Command>, f: Fill, lines: seq<Replica>, machine: nat, c: Command)
    requires Agree(base, commands, f, lines, machine) && Coalesces(f, c)
    ensures Agree(base, commands + [c], Take(base, f, c), lines, machine)
  {
    var g := Take(base, f, c);
    var merged := Serve(lines, machine, Ops(f.entries));
    assert PointerOk(base, f, merged, machine, c.key);
    assert Ops(g.entries) == Ops(f.entries);
    ServeSnoc(lines, machine, Plain(commands), OpOf(c));
    assert Plain(commands + [c]) == Plain(commands) + [OpOf(c)];
    forall k | 0 <= k < HOTTEST ensures PointerOk(base, g, merged, machine, k) {
      assert PointerOk(base, f, merged, machine, k);
    }
  }

  lemma AgreePlain(base: nat, commands: seq<Command>, f: Fill, lines: seq<Replica>, machine: nat, c: Command)
    requires Agree(base, commands, f, lines, machine) && !Coalesces(f, c)
    ensures Agree(base, commands + [c], Take(base, f, c), lines, machine)
  {
    var g := Take(base, f, c);
    var merged, merged' := Serve(lines, machine, Ops(f.entries)), Serve(lines, machine, Ops(g.entries));
    ServeSnoc(lines, machine, Plain(commands), OpOf(c));
    assert Plain(commands + [c]) == Plain(commands) + [OpOf(c)];
    ServeSnoc(lines, machine, Ops(f.entries), OpOf(c));
    assert Ops(g.entries) == Ops(f.entries) + [OpOf(c)];
    forall k | 0 <= k < HOTTEST ensures PointerOk(base, g, merged', machine, k) {
      assert PointerOk(base, f, merged, machine, k);
    }
  }

  lemma {:induction false} TakeAllAgrees(base: nat, commands: seq<Command>, lines: seq<Replica>, machine: nat)
    ensures Agree(base, commands, TakeAll(base, commands), lines, machine)
  {
    if commands == [] {
      assert Plain(commands) == [] && Ops([]) == [];
    } else {
      var n := |commands| - 1;
      var f := TakeAll(base, commands[..n]);
      TakeAllAgrees(base, commands[..n], lines, machine);
      assert commands[..n] + [commands[n]] == commands;
      if Coalesces(f, commands[n]) {
        AgreeCoalesced(base, commands[..n], f, lines, machine, commands[n]);
      } else {
        AgreePlain(base, commands[..n], f, lines, machine, commands[n]);
      }
    }
  }

  // ----- What the commands ask for -----

  /** The cache a command leaves: a write gives its own key the value, under the next clock of the machine. */
  function Effect(lines: seq<Replica>, machine: nat, c: Command): (r: seq<Replica>)
    ensures |r| == |lines|
  {
    match c
    case Read(_) => lines
    case Write(key, value) =>
      if key >= |lines| then lines
      else lines[key := Replica(Timestamp(lines[key].ts.version + 2, machine), value)]
  }

  function CacheAfter(lines: seq<Replica>, machine: nat, commands: seq<Command>): (r: seq<Replica>)
    ensures |r| == |lines|
  {
    if commands == [] then lines
    else Effect(CacheAfter(lines, machine, commands[..|commands| - 1]), machine, commands[|commands| - 1])
  }

  /** The answer a command should get from this cache. */
  predicate Answers(lines: seq<Replica>, machine: nat, c: Command, resp: Response) {
    if c.key >= |lines| then resp == Miss
    else if c.Read? then resp == GetSuccess(lines[c.key])
    else resp == PutSuccess(Timestamp(lines[c.key].ts.version + 2, machine))
  }

  lemma OneCommand(lines: seq<Replica>, machine: nat, c: Command)
    ensures var (after, resp) := ServeOne(lines, machine, OpOf(c));
            after == Effect(lines, machine, c) && Answers(lines, machine, c, resp)
  {
  }

  /** Served on their own, the commands so far leave this cache, and the last one got this answer. */
  lemma {:induction false} PlainCache(lines: seq<Replica>, machine: nat, commands: seq<Command>)
    ensures Serve(lines, machine, Plain(commands)).0 == CacheAfter(lines, machine, commands)
    ensures var n := |commands| - 1;
            n >= 0 ==> Answers(CacheAfter(lines, machine, commands[..n]), machine, commands[n],
                               Serve(lines, machine, Plain(commands)).1[n])
  {
    if commands == [] {
      assert Plain(commands) == [];
    } else {
      var n := |commands| - 1;
      PlainCache(lines, machine, commands[..n]);
      PlainNext(lines, machine, commands, n);
      OneCommand(CacheAfter(lines, machine, commands[..n]), machine, commands[n]);
    }
  }

  lemma PlainNext(lines: seq<Replica>, machine: nat, commands: seq<Command>, n: nat)
    requires n == |commands| - 1
    ensures var (mid, resps) := Serve(lines, machine, Plain(commands[..n]));
            var (after, resp) := ServeOne(mid, machine, OpOf(commands[n]));
            Serve(lines, machine, Plain(commands)) == (after, resps + [resp])
  {
    assert Plain(commands) == Plain(commands[..n]) + [OpOf(commands[n])];
    ServeSnoc(lines, machine, Plain(commands[..n]), OpOf(commands[n]));
  }

  lemma {:induction false} PlainAnswer(lines: seq<Replica>, machine: nat, commands: seq<Command>, t: nat)
    requires t < |commands|
    ensures Answers(CacheAfter(lines, machine, commands[..t]), machine, commands[t],
                    Serve(lines, machine, Plain(commands)).1[t])
  {
    var n := |commands| - 1;
    if t == n {
      PlainCache(lines, machine, commands);
    } else {
      PlainAnswer(lines, machine, commands[..n], t);
      PlainNext(lines, machine, commands, n);
      assert commands[..n][..t] == commands[..t];
    }
  }

  /**
   Coalescing preserves meaning: against any cache, every command of the trace is answered, through the entry it was
   folded into, from the cache that the commands before it leave, and the cache ends up as they all leave it.
   */
  lemma SameMeaning(base: nat, commands: seq<Command>, lines: seq<Replica>, machine: nat)
    ensures var f := TakeAll(base, commands);
            var (after, resps) := Serve(lines, machine, Ops(f.entries));
            && after == CacheAfter(lines, machine, commands) && |f.slots| == |commands|
            && forall t :: 0 <= t < |commands| ==>
                 && f.slots[t] < |f.entries|
                 && Answers(CacheAfter(lines, machine, commands[..t]), machine, commands[t], resps[f.slots[t]])
  {
    TakeAllAgrees(base, commands, lines, machine);
    PlainCache(lines, machine, commands);
    forall t | 0 <= t < |commands|
      ensures Answers(CacheAfter(lines, machine, commands[..t]), machine, commands[t],
                      Serve(lines, machine, Plain(commands)).1[t])
    {
      PlainAnswer(lines, machine, commands, t);
    }
  }

  datatype Written = Nothing | Latest(value: Value)

  /** The value of the last write to a key among the commands. */
  function LastWrite(commands: seq<Command>, key: nat): Written {
    if commands == [] then Nothing
    else
      var last := commands[|commands| - 1];
      if last.Write? && last.key == key then Latest(last.value) else LastWrite(commands[..|commands| - 1], key)
  }

  /** What a read sees: the value of the last write to its key before it, under a larger clock, or what was there. */
  lemma {:induction false} CacheHolds(lines: seq<Replica>, machine: nat, commands: seq<Command>, key: nat)
    requires key < |lines|
    ensures var line := CacheAfter(lines, machine, commands)[key];
            match LastWrite(commands, key)
            case Nothing => line == lines[key]
            case Latest(value) => line.value == value && line.ts.cid == machine && Less(lines[key].ts, line.ts)
  {
    if commands == [] {
    } else {
      CacheHolds(lines, machine, commands[..|commands| - 1], key);
    }
  }

  // ----- Which reads are folded -----

  /** The reads of this key since its last write. */
  function ReadsSince(commands: seq<Command>, key: nat): nat {
    if commands == [] then 0
    else
      var before, last := ReadsSince(commands[..|commands| - 1], key), commands[|commands| - 1];
      if last.key != key then before else if last.Read? then before + 1 else 0
  }

  /** The pointer of a key is set exactly while reads of it are pending, and the entry it leads to counts them. */
  ghost predicate PointerCounts(base: nat, f: Fill, commands: seq<Command>, key: nat)
    requires |f.pointers| == HOTTEST && key < HOTTEST
  {
    && (f.pointers[key] != 0 <==> ReadsSince(commands, key) > 0)
    && (f.pointers[key] != 0 ==>
          && base < f.pointers[key] <= base + |f.entries| && f.entries[f.pointers[key] - 1 - base].op == Get(key)
          && f.entries[f.pointers[key] - 1 - base].len + 1 == ReadsSince(commands, key))
  }

  lemma {:induction false} PointersCount(base: nat, commands: seq<Command>)
    ensures forall key :: 0 <= key < HOTTEST ==> PointerCounts(base, TakeAll(base, commands), commands, key)
  {
    if commands == [] {
    } else {
      var n := |commands| - 1;
      var f, c := TakeAll(base, commands[..n]), commands[n];
      PointersCount(base, commands[..n]);
      if c.key < HOTTEST { assert PointerCounts(base, f, commands[..n], c.key); }
      forall key | 0 <= key < HOTTEST ensures PointerCounts(base, TakeAll(base, commands), commands, key) {
        assert PointerCounts(base, f, commands[..n], key);
      }
    }
  }

  /**
   A command takes no slot of its own exactly when it reads one of the hottest keys and that key was read before
   without a write since. Everything else takes the next slot.
   */
  lemma FoldedIff(base: nat, commands: seq<Command>, c: Command)
    ensures var before, after := TakeAll(base, commands), TakeAll(base, commands + [c]);
            && |after.entries| == |before.entries| +
                 (if c.Read? && c.key < HOTTEST && ReadsSince(commands, c.key) > 0 then 0 else 1)
            && |after.slots| == |commands| + 1
            && (|after.entries| > |before.entries| ==> after.slots[|commands|] == |before.entries|)
  {
    assert (commands + [c])[..|commands|] == commands;
    TakeAllAgrees(base, commands, [], 0);
    PointersCount(base, commands);
    if c.key < HOTTEST { assert PointerCounts(base, TakeAll(base, commands), commands, c.key); }
  }

  /** The one-byte count overflows exactly at the 257th read of a hottest key in a row. */
  lemma OverflowsIff(base: nat, commands: seq<Command>, c: Command)
    ensures Overflows(base, TakeAll(base, commands), c)
            <==> c.Read? && c.key < HOTTEST && ReadsSince(commands, c.key) == 256
  {
    PointersCount(base, commands);
    if c.key < HOTTEST { assert PointerCounts(base, TakeAll(base, commands), commands, c.key); }
  }

  // ----- Counting -----

  /** The read that stands for key `k`, if any, is in the buffer. */
  predicate Tracks(base: nat, f: Fill, k: nat)
    requires |f.pointers| == HOTTEST && k < HOTTEST
  {
    f.pointers[k] == 0
    || (base < f.pointers[k] <= base + |f.entries| && f.entries[f.pointers[k] - 1 - base].op == Get(k))
  }

  lemma TakeAllTracks(base: nat, commands: seq<Command>, k: nat)
    requires k < HOTTEST
    ensures Tracks(base, TakeAll(base, commands), k)
  {
    TakeAllAgrees(base, commands, [], 0);
    var f := TakeAll(base, commands);
    assert PointerOk(base, f, Serve([], 0, Ops(f.entries)), 0, k);
  }

  /** How many commands an entry stands for. */
  function Share(e: Entry): nat {
    if e.op.Get? then e.len + 1 else 1
  }

  function Shares(entries: seq<Entry>): nat {
    if entries == [] then 0 else Shares(entries[..|entries| - 1]) + Share(entries[|entries| - 1])
  }

  lemma {:induction false} SharesUpdate(entries: seq<Entry>, j: nat, e: Entry)
    requires j < |entries|
    ensures Shares(entries[j := e]) == Shares(entries) - Share(entries[j]) + Share(e)
  {
    var n := |entries| - 1;
    if j == n {
      assert entries[j := e][..n] == entries[..n];
    } else {
      assert entries[j := e][..n] == entries[..n][j := e];
      SharesUpdate(entries[..n], j, e);
    }
  }

  /** Every command consumed is accounted for by exactly one entry. */
  lemma {:induction false} SharesAreCommands(base: nat, commands: seq<Command>)
    ensures Shares(TakeAll(base, commands).entries) == |commands|
  {
    if commands == [] {
    } else {
      var n := |commands| - 1;
      SharesAreCommands(base, commands[..n]);
      if commands[n].key < HOTTEST { TakeAllTracks(base, commands[..n], commands[n].key); }
      TakeAddsOne(base, TakeAll(base, commands[..n]), commands[n]);
    }
  }

  lemma TakeAddsOne(base: nat, f: Fill, c: Command)
    requires |f.pointers| == HOTTEST && (c.key < HOTTEST ==> Tracks(base, f, c.key))
    ensures Shares(Take(base, f, c).entries) == Shares(f.entries) + 1
  {
    if Coalesces(f, c) {
      var j := f.pointers[c.key] - 1 - base;
      SharesUpdate(f.entries, j, f.entries[j].(len := f.entries[j].len + 1));
    } else {
      assert (f.entries + [EntryOf(c)])[..|f.entries|] == f.entries;
    }
  }

  /** The commands that entry `j` serves. */
  function ServedBy(slots: seq<nat>, j: nat): nat {
    if slots == [] then 0 else ServedBy(slots[..|slots| - 1], j) + if slots[|slots| - 1] == j then 1 else 0
  }

  lemma {:induction false} ServedByNone(slots: seq<nat>, j: nat)
    requires forall t :: 0 <= t < |slots| ==> slots[t] < j
    ensures ServedBy(slots, j) == 0
  {
    if slots == [] {
    } else {
      ServedByNone(slots[..|slots| - 1], j);
    }
  }

  /** An entry's count is exact: one read and the reads folded into it, or one write with its value's length. */
  ghost predicate EntryExact(f: Fill, j: nat)
    requires j < |f.entries|
  {
    match f.entries[j].op
    case Get(_) => ServedBy(f.slots, j) == f.entries[j].len + 1
    case Put(_, _) => ServedBy(f.slots, j) == 1 && f.entries[j].len == 32
    case _ => false
  }

  lemma TakeExact(base: nat, f: Fill, c: Command, j: nat)
    requires |f.pointers| == HOTTEST && (c.key < HOTTEST ==> Tracks(base, f, c.key)) && j < |Take(base, f, c).entries|
    requires forall t :: 0 <= t < |f.slots| ==> f.slots[t] < |f.entries|
    requires j < |f.entries| ==> EntryExact(f, j)
    ensures EntryExact(Take(base, f, c), j)
  {
    var g := Take(base, f, c);
    assert g.slots[..|f.slots|] == f.slots;
    if j == |f.entries| { ServedByNone(f.slots, j); }
  }

  lemma {:induction false} CountsExact(base: nat, commands: seq<Command>, j: nat)
    requires j < |TakeAll(base, commands).entries|
    ensures EntryExact(TakeAll(base, commands), j)
  {
    var n := |commands| - 1;
    var f := TakeAll(base, commands[..n]);
    TakeAllAgrees(base, commands[..n], [], 0);
    if commands[n].key < HOTTEST { TakeAllTracks(base, commands[..n], commands[n].key); }
    if j < |f.entries| { CountsExact(base, commands[..n], j); }
    TakeExact(base, f, commands[n], j);
  }

  /** The hits counted for a served batch: a read counts all the reads folded into it. */
  function Hits(entries: seq<Entry>, resps: seq<Response>): nat
    requires |entries| == |resps|
  {
    if entries == [] then 0 else
      var n := |entries| - 1;
      Hits(entries[..n], resps[..n])
      + if resps[n].GetSuccess? then entries[n].len + 1 else if resps[n].PutSuccess? then 1 else 0
  }

  ghost predicate ClientOps(entries: seq<Entry>, bound: nat) {
    forall j :: 0 <= j < |entries| ==> (entries[j].op.Get? || entries[j].op.Put?) && entries[j].op.key < bound
  }

  lemma {:induction false} ServeHits(lines: seq<Replica>, machine: nat, entries: seq<Entry>)
    requires ClientOps(entries, |lines|)
    ensures Hits(entries, Serve(lines, machine, Ops(entries)).1) == Shares(entries)
  {
    if entries == [] {
    } else {
      var n := |entries| - 1;
      ServeHits(lines, machine, entries[..n]);
      ServeSnoc(lines, machine, Ops(entries[..n]), entries[n].op);
      assert Ops(entries) == Ops(entries[..n]) + [entries[n].op];
      var resps, before := Serve(lines, machine, Ops(entries)).1, Serve(lines, machine, Ops(entries[..n])).1;
      assert resps[..n] == before;
    }
  }

  lemma {:induction false} EntriesFromCommands(base: nat, commands: seq<Command>, bound: nat)
    requires forall t :: 0 <= t < |commands| ==> commands[t].key < bound
    ensures ClientOps(TakeAll(base, commands).entries, bound)
  {
    if commands == [] {
    } else {
      EntriesFromCommands(base, commands[..|commands| - 1], bound);
      assert commands[|commands| - 1].key < bound;
    }
  }

  /** When every key is cached, the hits counted are the trace commands consumed. */
  lemma HitsAreCommands(base: nat, commands: seq<Command>, lines: seq<Replica>, machine: nat)
    requires forall t :: 0 <= t < |commands| ==> commands[t].key < |lines|
    ensures var entries := TakeAll(base, commands).entries;
            Hits(entries, Serve(lines, machine, Ops(entries)).1) == |commands|
  {
    EntriesFromCommands(base, commands, |lines|);
    ServeHits(lines, machine, TakeAll(base, commands).entries);
    SharesAreCommands(base, commands);
  }

  // ----- The loop -----

  function Advance(trace: seq<Command>, at: nat): nat {
    if at + 1 == |trace| then 0 else at + 1
  }

  /** Where the trace stands after `n` commands, and those commands; the trace starts over at its end. */
  function Cursor(trace: seq<Command>, start: nat, n: nat): (at: nat)
    requires start < |trace| || n == 0
    ensures start < |trace| ==> at < |trace|
  {
    if n == 0 then start else Advance(trace, Cursor(trace, start, n - 1))
  }

  function Consumed(trace: seq<Command>, start: nat, n: nat): (r: seq<Command>)
    requires start < |trace| || n == 0
    ensures |r| == n
  {
    if n == 0 then [] else Consumed(trace, start, n - 1) + [trace[Cursor(trace, start, n - 1)]]
  }

  /** The trace is read round and round from where it starts. */
  lemma {:induction false} CursorWraps(trace: seq<Command>, start: nat, n: nat)
    requires start < |trace|
    ensures Cursor(trace, start, n) == (start + n) % |trace|
  {
    if n == 0 {
      RemainderIs(start, |trace|, 0, start);
    } else {
      CursorWraps(trace, start, n - 1);
      NextRemainder(start + n - 1, |trace|);
    }
  }

  lemma {:induction false} ConsumedAt(trace: seq<Command>, start: nat, n: nat, t: nat)
    requires start < |trace| && t < n
    ensures Consumed(trace, start, n)[t] == trace[(start + t) % |trace|]
  {
    if t == n - 1 {
      CursorWraps(trace, start, t);
    } else {
      ConsumedAt(trace, start, n - 1, t);
    }
  }

  lemma NextRemainder(x: nat, n: nat)
    requires n > 0
    ensures (x + 1) % n == if x % n + 1 == n then 0 else x % n + 1
  {
    var q, r := x / n, x % n;
    Distributes(n, q);
    if r + 1 == n { RemainderIs(x + 1, n, q + 1, 0); } else { RemainderIs(x + 1, n, q, r + 1); }
  }

  lemma Distributes(n: nat, q: nat)
    ensures n * (q + 1) == n * q + n
  {
  }

  lemma RemainderIs(x: nat, n: nat, q: nat, r: nat)
    requires r < n && x == n * q + r
    ensures x % n == r
  {
    assert n * (x / n - q) == r - x % n;
    Multiples(n, x / n - q);
  }

  lemma Multiples(n: int, d: int)
    requires n >= 0
    ensures d >= 1 ==> n * d >= n
    ensures d <= -1 ==> n * d <= -n
  {
  }

  predicate Counted(entries: seq<Entry>) {
    forall j :: 0 <= j < |entries| ==> entries[j].len <= MAX_COUNT
  }

  lemma {:induction false} SharesBounded(entries: seq<Entry>)
    requires Counted(entries)
    ensures Shares(entries) <= (MAX_COUNT + 1) * |entries|
  {
    if entries == [] {
    } else {
      SharesBounded(entries[..|entries| - 1]);
    }
  }

  lemma CommandsBounded(base: nat, commands: seq<Command>)
    requires Counted(TakeAll(base, commands).entries)
    ensures |commands| <= (MAX_COUNT + 1) * |TakeAll(base, commands).entries|
  {
    SharesAreCommands(base, commands);
    SharesBounded(TakeAll(base, commands).entries);
  }

  /** The fill after `n` commands of the trace. */
  ghost function FillAfter(base: nat, trace: seq<Command>, start: nat, n: nat): (f: Fill)
    requires start < |trace| || n == 0
    ensures |f.pointers| == HOTTEST
  {
    TakeAll(base, Consumed(trace, start, n))
  }

  /** What the next command finds, and what it leaves. */
  ghost predicate Takes(base: nat, f: Fill, c: Command, g: Fill, n: nat) {
    && |f.pointers| == HOTTEST && g == Take(base, f, c) && (c.key < HOTTEST ==> Tracks(base, f, c.key))
    && (Counted(g.entries) ==> n + 1 <= (MAX_COUNT + 1) * |g.entries|)
  }

  lemma FillNext(base: nat, trace: seq<Command>, start: nat, n: nat)
    requires start < |trace|
    ensures Takes(base, FillAfter(base, trace, start, n), trace[Cursor(trace, start, n)],
                  FillAfter(base, trace, start, n + 1), n)
  {
    var f, c := FillAfter(base, trace, start, n), trace[Cursor(trace, start, n)];
    assert Consumed(trace, start, n + 1)[..n] == Consumed(trace, start, n);
    if c.key < HOTTEST { TakeAllTracks(base, Consumed(trace, start, n), c.key); }
    if Counted(Take(base, f, c).entries) { CommandsBounded(base, Consumed(trace, start, n + 1)); }
  }

  /** The buffer and the pointer table hold this much of the trace, and no count has overflowed. */
  ghost predicate Holds(entries: seq<Entry>, pointers: seq<nat>, f: Fill) {
    entries == f.entries && pointers == f.pointers && Counted(entries)
  }

  /** Takes one command. `overflow` is where one more read would not fit the one-byte count: the program aborts. */
  method TakeOne(c: Command, ops: array<Entry>, next: nat, i: nat, pointers: array<nat>, ghost f: Fill)
    returns (i': nat, overflow: bool)
    requires next <= i < ops.Length && pointers.Length == HOTTEST
    requires Holds(ops[next..i], pointers[..], f)
    requires c.key < HOTTEST ==> Tracks(next, f, c.key)
    modifies ops, pointers
    ensures overflow ==> ops[..] == old(ops[..]) && pointers[..] == old(pointers[..]) && i' == i
    ensures overflow <==> Overflows(next, f, c)
    ensures !overflow ==> i <= i' <= ops.Length && Holds(ops[next..i'], pointers[..], Take(next, f, c))
    ensures !overflow ==> ops[..next] == old(ops[..next])
  {
    i', overflow := i, false;
    if c.key < HOTTEST {
      if c.Read? {
        if pointers[c.key] == 0 {
          pointers[c.key] := i + 1;
        } else {
          var j := pointers[c.key] - 1;
          assert ops[j] == ops[next..i][j - next];
          if ops[j].len == MAX_COUNT { return i, true; }
          ops[j] := ops[j].(len := ops[j].len + 1);
          return;
        }
      } else {
        pointers[c.key] := 0;
      }
    }
    ops[i] := EntryOf(c);
    i' := i + 1;
    assert ops[next..i'] == f.entries + [EntryOf(c)];
  }

  /** The buffer and the pointer table hold `n` commands of the trace. */
  ghost predicate Filled(
    entries: seq<Entry>, pointers: seq<nat>, base: nat, trace: seq<Command>, start: nat, n: nat)
  {
    && (start < |trace| || n == 0) && Holds(entries, pointers, FillAfter(base, trace, start, n))
    && n <= (MAX_COUNT + 1) * |entries|
  }

  /** The memset over the pointer table. */
  method Reset(pointers: array<nat>, ghost base: nat, ghost trace: seq<Command>, ghost start: nat)
    requires pointers.Length == HOTTEST
    modifies pointers
    ensures Filled([], pointers[..], base, trace, start, 0) && Cursor(trace, start, 0) == start
  {
    forall k | 0 <= k < HOTTEST { pointers[k] := 0; }
  }

  /** One round of the loop. */
  method TakeNext(trace: seq<Command>, at: nat, ops: array<Entry>, next: nat, i: nat, pointers: array<nat>,
                  ghost start: nat, ghost n: nat)
    returns (i': nat, at': nat, overflow: bool)
    requires next <= i < ops.Length && pointers.Length == HOTTEST && start < |trace| && at == Cursor(trace, start, n)
    requires Filled(ops[next..i], pointers[..], next, trace, start, n)
    modifies ops, pointers
    ensures i <= i' <= ops.Length && ops[..next] == old(ops[..next])
    ensures overflow ==> i' == i && at' == at && Overflows(next, FillAfter(next, trace, start, n), trace[at])
    ensures Filled(ops[next..i'], pointers[..], next, trace, start, if overflow then n else n + 1)
    ensures at' < |trace| && at' == Cursor(trace, start, if overflow then n else n + 1)
  {
    FillNext(next, trace, start, n);
    i', overflow := TakeOne(trace[at], ops, next, i, pointers, FillAfter(next, trace, start, n));
    at' := if overflow then at else Advance(trace, at);
  }

  /**
   Fills the buffer after its first `next` slots, until it is full or a count overflows. What it stores is what
   taking the next commands of the trace one by one gives.
   */
  method BatchFromTrace(trace: seq<Command>, start: nat, ops: array<Entry>, next: nat, pointers: array<nat>)
    returns (i: nat, at: nat, overflow: bool, ghost n: nat)
    requires (start < |trace| || trace == []) && ops.Length == BATCH && next <= BATCH && pointers.Length == HOTTEST
    modifies ops, pointers
    ensures next <= i <= BATCH && ops[..next] == old(ops[..next])
    ensures Filled(ops[next..i], pointers[..], next, trace, start, n) && at == Cursor(trace, start, n)
    ensures !overflow ==> i == BATCH || (trace == [] && i == next)
    ensures overflow ==> i < BATCH && at < |trace| && Overflows(next, FillAfter(next, trace, start, n), trace[at])
  {
    Reset(pointers, next, trace, start);
    i, at, n, overflow := next, start, 0, false;
    assert ops[next..next] == [];
    while i < BATCH && at < |trace| && !overflow
      invariant next <= i <= BATCH && ops[..next] == old(ops[..next]) && (start < |trace| <==> at < |trace|)
      invariant Filled(ops[next..i], pointers[..], next, trace, start, n) && at == Cursor(trace, start, n)
      invariant overflow ==> i < BATCH && at < |trace| && Overflows(next, FillAfter(next, trace, start, n), trace[at])
      invariant start >= |trace| ==> i == next
      decreases (MAX_COUNT + 1) * BATCH - n, !overflow
    {
      i, at, overflow := TakeNext(trace, at, ops, next, i, pointers, start, n);
      n := if overflow then n else n + 1;
    }
  }
}
