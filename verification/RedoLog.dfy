/**
 The redo log of the persistent hash table. Stores reach persistent memory only at a drain, so the log tracks
 what has been written and what is known to have arrived. Sequence numbers name both a log entry and the table
 write it protects.
 */
module RedoLog {
  const MAX_BATCH: nat := 16
  const ENTRIES: nat := 128

  datatype Options = Options(redoBatch: bool, asyncDrain: bool)

  datatype Item = Item(key: nat, value: int)

  /** Number zero marks a slot never written. */
  datatype Entry = Entry(number: nat, item: Item)

  const BLANK := Entry(0, Item(0, 0))

  /**
   `cur` is the next sequence number. Entries below `durable` are persistent. The sets below `issued` have had
   their turn at the table, and what those below `drained` wrote there is persistent. `history` is what was set,
   from number one on.
   */
  datatype Log = Log(
    cur: nat, entries: seq<Entry>, durable: nat, committed: nat, issued: nat, drained: nat, history: seq<Item>)

  function Fresh(): Log {
    Log(1, seq(ENTRIES, _ => BLANK), 1, 0, 1, 1, [])
  }

  function Drain(l: Log): Log {
    l.(durable := l.cur, drained := l.issued)
  }

  /** The log just before a set's entry is written: a drain whenever the log wraps. */
  function Ready(l: Log): Log {
    if l.cur % ENTRIES == 0 then Drain(l) else l
  }

  /** The entry is in its slot, but the sequence number has not moved on. */
  function Written(l: Log, item: Item): Log
    requires |l.entries| == ENTRIES
  {
    var d := Ready(l);
    d.(entries := d.entries[d.cur % ENTRIES := Entry(d.cur, item)])
  }

  /** One set logged. Without batching its entry and the committed number are persisted one after the other. */
  function LogSet(l: Log, o: Options, item: Item): Log
    requires |l.entries| == ENTRIES
  {
    var w := Written(l, item).(cur := l.cur + 1, history := l.history + [item]);
    if o.redoBatch then w else Drain(w).(committed := l.cur)
  }

  function LogSets(l: Log, o: Options, items: seq<Item>): (r: Log)
    requires |l.entries| == ENTRIES
    ensures |r.entries| == ENTRIES && r.cur == l.cur + |items| && r.issued == l.issued
    ensures r.history == l.history + items
  {
    if items == [] then l
    else
      var n := |items| - 1;
      assert items == items[..n] + [items[n]];
      LogSet(LogSets(l, o, items[..n]), o, items[n])
  }

  /** With batching, one drain and one committed number for all the sets of a batch. */
  function Commit(l: Log, o: Options, k: nat): Log {
    if o.redoBatch && k > 0 then Drain(l).(committed := l.cur) else l
  }

  /** The first `k` sets of the batch have had their turn at the table. */
  function Apply(l: Log, o: Options, k: nat): (r: Log)
    ensures r.history == l.history
    ensures r.cur == l.cur && r.entries == l.entries && r.committed == l.committed && r.issued == l.issued + k
    ensures k > 0 && !o.asyncDrain ==> r.drained == r.issued && r.durable == r.cur
    ensures k == 0 || o.asyncDrain ==> r.drained == l.drained && r.durable == l.durable
  {
    if k == 0 then l else
      var p := Apply(l, o, k - 1);
      var w := p.(issued := p.issued + 1);
      if o.asyncDrain then w else Drain(w)
  }

  /** The sets of a batch: log them, commit them, then write them to the table. */
  function Batch(l: Log, o: Options, items: seq<Item>): (r: Log)
    requires |l.entries| == ENTRIES
    ensures |r.entries| == ENTRIES && r.cur == l.cur + |items| && r.history == l.history + items
  {
    Apply(Commit(LogSets(l, o, items), o, |items|), o, |items|)
  }

  datatype Op = Get(key: nat) | Set(item: Item)

  function Sets(ops: seq<Op>): (items: seq<Item>)
    ensures |items| <= |ops|
  {
    if ops == [] then []
    else Sets(ops[..|ops| - 1]) + if ops[|ops| - 1].Set? then [ops[|ops| - 1].item] else []
  }

  lemma SetsNext(ops: seq<Op>, i: nat)
    requires i < |ops|
    ensures Sets(ops[..i + 1]) == if ops[i].Set? then Sets(ops[..i]) + [ops[i].item] else Sets(ops[..i])
    ensures ops[i].Set? ==> Sets(ops[..i + 1])[..|Sets(ops[..i])|] == Sets(ops[..i])
  {
    assert ops[..i + 1][..i] == ops[..i];
  }

  // ----- Invariant -----

  /** A used slot holds one of the last ENTRIES sequence numbers, the one that maps to it. */
  ghost predicate SlotOk(l: Log, s: nat)
    requires s < |l.entries|
  {
    var q := l.entries[s].number;
    q == 0 || (q % ENTRIES == s && q < l.cur <= q + ENTRIES)
  }

  /** Entry `q` is in its slot, with what was set. */
  ghost predicate InLog(l: Log, q: nat) {
    && |l.entries| == ENTRIES && 1 <= q <= |l.history|
    && l.entries[q % ENTRIES] == Entry(q, l.history[q - 1])
  }

  /** If `q` is one of the last ENTRIES sequence numbers, its entry is in the log. */
  ghost predicate Held(l: Log, q: nat) {
    1 <= q < l.cur <= q + ENTRIES ==> InLog(l, q)
  }

  /** The log holds exactly the last ENTRIES sets, each in its own slot. */
  ghost predicate Window(l: Log) {
    && |l.entries| == ENTRIES && l.cur == |l.history| + 1
    && (forall s :: 0 <= s < ENTRIES ==> SlotOk(l, s))
    && (forall q: nat :: Held(l, q))
  }

  /** Between batches. */
  ghost predicate Ok(l: Log, o: Options) {
    && Window(l)
    && l.durable == l.cur == l.issued
    && 1 <= l.drained <= l.issued <= l.drained + MAX_BATCH
    && l.committed == if l.cur == 1 then 0 else if o.redoBatch then l.cur else l.cur - 1
  }

  /** Numbers less than a lap apart have different slots; a whole lap apart, the same. */
  lemma Laps(q: nat, c: nat)
    requires q < c <= q + ENTRIES
    ensures q % ENTRIES == c % ENTRIES <==> c == q + ENTRIES
  {
  }

  lemma SlotSlides(l: Log, o: Options, item: Item, s: nat)
    requires |l.entries| == ENTRIES && s < ENTRIES && SlotOk(l, s)
    ensures SlotOk(LogSet(l, o, item), s)
  {
    if l.entries[s].number != 0 { Laps(l.entries[s].number, l.cur); }
  }

  lemma HeldSlides(l: Log, o: Options, item: Item, q: nat)
    requires |l.entries| == ENTRIES && l.cur == |l.history| + 1 && Held(l, q)
    ensures Held(LogSet(l, o, item), q)
  {
    if 1 <= q < l.cur < q + ENTRIES { Laps(q, l.cur); }
  }

  lemma WindowSlides(l: Log, o: Options, item: Item)
    requires Window(l)
    ensures Window(LogSet(l, o, item))
  {
    forall s | 0 <= s < ENTRIES ensures SlotOk(LogSet(l, o, item), s) { SlotSlides(l, o, item, s); }
    forall q: nat ensures Held(LogSet(l, o, item), q) { HeldSlides(l, o, item, q); }
  }

  lemma {:induction false} LogSetsWindow(l: Log, o: Options, items: seq<Item>)
    requires Window(l)
    ensures Window(LogSets(l, o, items))
  {
    if items == [] {
    } else {
      var n := |items| - 1;
      LogSetsWindow(l, o, items[..n]);
      WindowSlides(LogSets(l, o, items[..n]), o, items[n]);
    }
  }

  /** While sets are being logged, table writes only become more durable, and only those of earlier batches. */
  lemma {:induction false} LogSetsMarks(l: Log, o: Options, items: seq<Item>)
    requires Ok(l, o)
    ensures var r := LogSets(l, o, items);
            && l.drained <= r.drained <= l.issued
            && (items != [] && !o.redoBatch ==>
                  r.drained == l.issued && r.durable == r.cur && r.committed == r.cur - 1)
            && (o.redoBatch ==> r.committed == l.committed && l.durable <= r.durable <= r.cur)
  {
    if items == [] {
    } else {
      LogSetsMarks(l, o, items[..|items| - 1]);
    }
  }

  lemma SameWindow(l: Log, r: Log)
    requires Window(l) && r.entries == l.entries && r.cur == l.cur && r.history == l.history
    ensures Window(r)
  {
    forall s | 0 <= s < ENTRIES ensures SlotOk(r, s) { assert SlotOk(l, s); }
    forall q: nat ensures Held(r, q) { assert Held(l, q); }
  }

  lemma BatchOk(l: Log, o: Options, items: seq<Item>)
    requires Ok(l, o) && |items| <= MAX_BATCH
    ensures Ok(Batch(l, o, items), o)
  {
    LogSetsWindow(l, o, items);
    LogSetsMarks(l, o, items);
    SameWindow(LogSets(l, o, items), Batch(l, o, items));
  }

  /** The log after a run of batches, each given by its sets. */
  function After(o: Options, batches: seq<seq<Item>>): (l: Log)
    ensures |l.entries| == ENTRIES
  {
    if batches == [] then Fresh()
    else Batch(After(o, batches[..|batches| - 1]), o, batches[|batches| - 1])
  }

  predicate Bounded(batches: seq<seq<Item>>) {
    forall b :: 0 <= b < |batches| ==> |batches[b]| <= MAX_BATCH
  }

  lemma {:induction false} AfterOk(o: Options, batches: seq<seq<Item>>)
    requires Bounded(batches)
    ensures Ok(After(o, batches), o)
  {
    if batches == [] {
    } else {
      AfterOk(o, batches[..|batches| - 1]);
      BatchOk(After(o, batches[..|batches| - 1]), o, batches[|batches| - 1]);
    }
  }

  // ----- What the log guarantees -----

  /** The slot about to be written holds nothing, or the entry one lap back. */
  lemma LapBehind(l: Log)
    requires Window(l)
    ensures var q := l.entries[l.cur % ENTRIES].number; q == 0 || q + ENTRIES == l.cur
  {
    var s := l.cur % ENTRIES;
    assert SlotOk(l, s);
    if l.entries[s].number != 0 { Laps(l.entries[s].number, l.cur); }
  }

  /** Reusing the log from its first slot drains the table writes of all earlier batches. */
  lemma {:induction false} LapDrains(l: Log, o: Options, items: seq<Item>, q: nat)
    requires |l.entries| == ENTRIES && l.cur <= q < l.cur + |items| && q % ENTRIES == 0
    ensures var r := LogSets(l, o, items); r.drained == l.issued && r.durable >= q
  {
    var n := |items| - 1;
    if q < l.cur + n { LapDrains(l, o, items[..n], q); }
  }

  /** Whatever entry a set overwrites, the table write it protected is already persistent. */
  lemma OverwriteDrained(o: Options, batches: seq<seq<Item>>, items: seq<Item>)
    requires Bounded(batches) && |items| < MAX_BATCH
    ensures var l := Ready(LogSets(After(o, batches), o, items));
            l.entries[l.cur % ENTRIES].number < l.drained
  {
    AfterOk(o, batches);
    OverwriteDrainedFrom(After(o, batches), o, items);
  }

  lemma OverwriteDrainedFrom(l: Log, o: Options, items: seq<Item>)
    requires Ok(l, o) && |items| < MAX_BATCH
    ensures var r := Ready(LogSets(l, o, items)); r.entries[r.cur % ENTRIES].number < r.drained
  {
    var r := LogSets(l, o, items);
    LogSetsWindow(l, o, items);
    LogSetsMarks(l, o, items);
    LapBehind(r);
    assert l.drained <= r.drained && r.cur < l.drained + 2 * MAX_BATCH;
  }

  /** Set `q` survives a crash here: what it wrote to the table is persistent, or its committed entry is. */
  ghost predicate Recoverable(l: Log, q: nat) {
    q < l.drained || (InLog(l, q) && q < l.durable && q <= l.committed)
  }

  /**
   A set of an earlier batch is never lost, wherever in the logging of the next batch a crash falls: between two
   sets, with an entry written, or drained but not committed. Without redo-log batching that holds of the sets
   just logged as well.
   */
  lemma NothingLost(o: Options, batches: seq<seq<Item>>, items: seq<Item>, next: Item, q: nat)
    requires Bounded(batches) && |items| <= MAX_BATCH && q >= 1
    requires q < After(o, batches).cur + if o.redoBatch then 0 else |items|
    ensures var l := LogSets(After(o, batches), o, items);
            && Recoverable(l, q) && Recoverable(Drain(l), q)
            && Recoverable(Written(l, next), q) && Recoverable(Drain(Written(l, next)), q)
  {
    AfterOk(o, batches);
    LoggingLosesNothing(After(o, batches), o, items, q);
    WritingLosesNothing(LogSets(After(o, batches), o, items), next, q);
  }

  lemma LoggingLosesNothing(l: Log, o: Options, items: seq<Item>, q: nat)
    requires Ok(l, o) && |items| <= MAX_BATCH && 1 <= q < l.cur + if o.redoBatch then 0 else |items|
    ensures var r := LogSets(l, o, items);
            && Recoverable(r, q) && q < r.cur <= r.drained + 2 * MAX_BATCH
            && r.drained <= r.issued && r.durable <= r.cur
  {
    var r := LogSets(l, o, items);
    LogSetsWindow(l, o, items);
    LogSetsMarks(l, o, items);
    if q >= r.drained { assert Held(r, q); }
  }

  lemma WritingLosesNothing(l: Log, item: Item, q: nat)
    requires |l.entries| == ENTRIES && q < l.cur <= l.drained + 2 * MAX_BATCH && Recoverable(l, q)
    requires l.drained <= l.issued && l.durable <= l.cur
    ensures Recoverable(Written(l, item), q) && Recoverable(Drain(Written(l, item)), q)
  {
    if q >= l.drained { Laps(q, l.cur); }
  }

  /** From the commit on, through every table write, no set is lost, those of the batch included. */
  lemma NothingLostAfterCommit(o: Options, batches: seq<seq<Item>>, items: seq<Item>, k: nat, q: nat)
    requires Bounded(batches) && k <= |items| <= MAX_BATCH && 1 <= q < After(o, batches).cur + |items|
    ensures Recoverable(Apply(Commit(LogSets(After(o, batches), o, items), o, |items|), o, k), q)
  {
    var l := After(o, batches);
    AfterOk(o, batches);
    var r := LogSets(l, o, items);
    LogSetsWindow(l, o, items);
    LogSetsMarks(l, o, items);
    if q >= r.drained { assert Held(r, q); }
  }

  /**
   How far the table is behind when a batch returns: with draining after each write, not at all; without it, by the
   sets of this batch at most.
   */
  lemma BatchDrains(o: Options, batches: seq<seq<Item>>, items: seq<Item>)
    requires Bounded(batches) && 0 < |items| <= MAX_BATCH
    ensures var l := Batch(After(o, batches), o, items);
            && l.issued == l.cur && l.drained == if o.asyncDrain then l.cur - |items| else l.cur
  {
    AfterOk(o, batches);
    LogSetsMarks(After(o, batches), o, items);
  }

  /** When a batch returns, every set in it is persistent in the log. */
  lemma BatchPersistent(o: Options, batches: seq<seq<Item>>, items: seq<Item>, q: nat)
    requires Bounded(batches) && |items| <= MAX_BATCH
    requires After(o, batches).cur <= q < After(o, batches).cur + |items|
    ensures var l := Batch(After(o, batches), o, items);
            && InLog(l, q) && q < l.durable && q <= l.committed
            && l.history[q - 1] == items[q - After(o, batches).cur]
  {
    AfterOk(o, batches);
    BatchOk(After(o, batches), o, items);
    assert Held(Batch(After(o, batches), o, items), q);
  }

  // ----- Which entries count as committed -----

  /** Every entry up to the committed number has reached persistent memory. */
  ghost predicate CommittedDurable(l: Log) {
    forall s :: 0 <= s < |l.entries| && 0 < l.entries[s].number <= l.committed ==> l.entries[s].number < l.durable
  }

  /** The rule holds at every point while the sets of a batch are logged. */
  ghost predicate AlwaysCommittedDurable(l: Log, o: Options, items: seq<Item>)
    requires |l.entries| == ENTRIES
  {
    && (forall i: nat :: i <= |items| ==> CommittedDurable(LogSets(l, o, items[..i])))
    && (forall i: nat :: i < |items| ==> CommittedDurable(Written(LogSets(l, o, items[..i]), items[i])))
  }

  lemma CommittedDurableAt(l: Log, o: Options, items: seq<Item>, next: Item)
    requires Ok(l, o) && (!o.redoBatch || l.cur == 1)
    ensures CommittedDurable(LogSets(l, o, items)) && CommittedDurable(Written(LogSets(l, o, items), next))
  {
    LogSetsWindow(l, o, items);
    LogSetsMarks(l, o, items);
    var r := LogSets(l, o, items);
    forall s | 0 <= s < ENTRIES && 0 < r.entries[s].number <= r.committed ensures r.entries[s].number < r.durable {
      assert SlotOk(r, s);
    }
  }

  lemma CommittedDurableBetween(l: Log, o: Options)
    requires Ok(l, o)
    ensures CommittedDurable(l)
  {
    forall s | 0 <= s < ENTRIES && 0 < l.entries[s].number <= l.committed ensures l.entries[s].number < l.durable {
      assert SlotOk(l, s);
    }
  }

  /**
   With redo-log batching the committed number is written one past the last entry, so the first entry of the
   next batch counts as committed before it is persistent. The rule holds throughout a batch exactly when
   batching is off, or the batch sets nothing, or nothing was ever logged.
   */
  lemma CommittedDurableIff(o: Options, batches: seq<seq<Item>>, items: seq<Item>)
    requires Bounded(batches) && |items| <= MAX_BATCH
    ensures AlwaysCommittedDurable(After(o, batches), o, items)
            <==> !o.redoBatch || items == [] || After(o, batches).cur == 1
  {
    var l := After(o, batches);
    AfterOk(o, batches);
    if items == [] {
      CommittedDurableBetween(l, o);
      assert items[..0] == [];
    } else if !o.redoBatch || l.cur == 1 {
      forall i: nat | i <= |items| ensures CommittedDurable(LogSets(l, o, items[..i])) {
        CommittedDurableAt(l, o, items[..i], items[0]);
      }
      forall i: nat | i < |items| ensures CommittedDurable(Written(LogSets(l, o, items[..i]), items[i])) {
        CommittedDurableAt(l, o, items[..i], items[i]);
      }
    } else {
      assert items[..0] == [];
      var w := Written(LogSets(l, o, items[..0]), items[0]);
      assert w.entries[l.cur % ENTRIES].number == l.cur == w.committed && w.durable == l.cur;
      assert !CommittedDurable(w);
    }
  }

  /** The smallest case: one set, then another. */
  lemma UncommittedEntryCounts(first: Item, second: Item)
    ensures !AlwaysCommittedDurable(After(Options(true, true), [[first]]), Options(true, true), [second])
  {
    var o := Options(true, true);
    assert After(o, [[first]]) == Batch(Fresh(), o, [first]) by { assert [[first]][..0] == []; }
    CommittedDurableIff(o, [[first]], [second]);
  }

  // ----- The loops -----

  class Writer {
    const options: Options
    const entries: array<Entry>
    var cur: nat
    var committed: nat
    ghost var durable: nat
    ghost var issued: nat
    ghost var drained: nat
    ghost var history: seq<Item>

    ghost function View(): Log
      reads this, entries
    {
      Log(cur, entries[..], durable, committed, issued, drained, history)
    }

    ghost predicate Valid()
      reads this, entries
    {
      Ok(View(), options)
    }

    constructor (options: Options)
      ensures Valid() && View() == Fresh() && this.options == options && fresh(entries)
    {
      this.options := options;
      entries := new Entry[ENTRIES](_ => BLANK);
      cur, committed, durable, issued, drained, history := 1, 0, 1, 1, 1, [];
      new;
      assert entries[..] == Fresh().entries;
    }

    method LogEntry(item: Item)
      requires entries.Length == ENTRIES
      modifies this, entries
      ensures View() == LogSet(old(View()), options, item)
    {
      if cur % ENTRIES == 0 { durable, drained := cur, issued; }
      entries[cur % ENTRIES] := Entry(cur, item);
      if !options.redoBatch {
        durable, drained := cur + 1, issued;
        committed := cur;
      }
      cur, history := cur + 1, history + [item];
    }

    method LogLoop(ops: seq<Op>) returns (allGets: bool)
      requires entries.Length == ENTRIES
      modifies this, entries
      ensures View() == LogSets(old(View()), options, Sets(ops))
      ensures allGets <==> Sets(ops) == []
    {
      ghost var l := View();
      allGets := true;
      for i := 0 to |ops|
        invariant View() == LogSets(l, options, Sets(ops[..i]))
        invariant allGets <==> Sets(ops[..i]) == []
      {
        SetsNext(ops, i);
        if ops[i].Set? {
          allGets := false;
          LogEntry(ops[i].item);
        }
      }
      assert ops[..|ops|] == ops;
    }

    /** Each set has its turn at the table; one that finds no room there still counts. */
    method TableLoop(ops: seq<Op>)
      modifies `durable, `issued, `drained
      ensures View() == Apply(old(View()), options, |Sets(ops)|)
    {
      ghost var l := View();
      for i := 0 to |ops|
        invariant View() == Apply(l, options, |Sets(ops[..i])|)
      {
        assert ops[..i + 1][..i] == ops[..i];
        if ops[i].Set? {
          issued := issued + 1;
          if !options.asyncDrain { durable, drained := cur, issued; }
        }
      }
      assert ops[..|ops|] == ops;
    }

    method BatchOpDrain(ops: seq<Op>)
      requires Valid() && |ops| <= MAX_BATCH
      modifies this, entries
      ensures Valid() && View() == Batch(old(View()), options, Sets(ops))
    {
      BatchOk(View(), options, Sets(ops));
      var allGets := LogLoop(ops);
      if options.redoBatch && !allGets {
        durable, drained := cur, issued;
        committed := cur;
      }
      TableLoop(ops);
    }
  }
}
