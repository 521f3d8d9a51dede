/**
 What the redo log is for. A crash may leave in the table any of the writes that were not drained yet, and none, some
 or all of their bytes. Replaying the log over that table restores the map after a prefix of the sets, with every set
 of a returned batch in it. The program has no recovery; the replay here goes through the sequence numbers up to the
 committed one and sets again what the log still holds.
 */
module Recovery {
  import opened RedoLog

  type Contents = map<nat, int>

  /** Whether a table can hold these keys. */
  type Room = set<nat> -> bool

  ghost predicate Monotone(room: Room) {
    forall small: set<nat>, large: set<nat> :: small <= large && room(large) ==> room(small)
  }

  /** A set of a key that is there or finds room; any other is refused. */
  function SetIn(room: Room, m: Contents, item: Item): Contents {
    if item.key in m || room(m.Keys + {item.key}) then m[item.key := item.value] else m
  }

  /** The map after these sets, from an empty table. */
  function MapOf(room: Room, items: seq<Item>): Contents {
    if items == [] then map[] else SetIn(room, MapOf(room, items[..|items| - 1]), items[|items| - 1])
  }

  lemma MapNext(room: Room, items: seq<Item>, n: nat)
    requires n < |items|
    ensures MapOf(room, items[..n + 1]) == SetIn(room, MapOf(room, items[..n]), items[n])
  {
    assert items[..n + 1][..n] == items[..n];
  }

  lemma {:induction false} MapFits(room: Room, items: seq<Item>)
    requires Monotone(room)
    ensures MapOf(room, items).Keys == {} || room(MapOf(room, items).Keys)
  {
    if items == [] {
    } else {
      var before := MapOf(room, items[..|items| - 1]);
      var item := items[|items| - 1];
      MapFits(room, items[..|items| - 1]);
      if item.key in before {
        assert MapOf(room, items).Keys == before.Keys;
      } else if room(before.Keys + {item.key}) {
        assert MapOf(room, items).Keys == before.Keys + {item.key};
      }
    }
  }

  /** Key `k` is set by one of the sets from number `a` to before number `b`. */
  ghost predicate Touched(items: seq<Item>, k: nat, a: nat, b: nat) {
    exists i :: 0 <= i < |items| && a <= i + 1 < b && items[i].key == k
  }

  /** More sets never lose a key. */
  lemma {:induction false} MapGrows(room: Room, items: seq<Item>, i: nat, j: nat)
    requires i <= j <= |items|
    ensures MapOf(room, items[..i]).Keys <= MapOf(room, items[..j]).Keys
    decreases j
  {
    if i == j {
    } else {
      MapGrows(room, items, i, j - 1);
      MapNext(room, items, j - 1);
    }
  }

  /** They leave alone the keys they do not set. */
  lemma {:induction false} MapKeeps(room: Room, items: seq<Item>, i: nat, j: nat, k: nat)
    requires i <= j <= |items| && k in MapOf(room, items[..j]) && !Touched(items, k, i + 1, j + 1)
    ensures k in MapOf(room, items[..i]) && MapOf(room, items[..j])[k] == MapOf(room, items[..i])[k]
    decreases j
  {
    if i == j {
    } else {
      MapNext(room, items, j - 1);
      assert items[j - 1].key != k;
      MapKeeps(room, items, i, j - 1, k);
    }
  }

  // ----- A crash and its recovery -----

  /**
   What a crash can leave of the table: the drained sets are there, other keys only if some set put them there, and
   the values of keys set since the drain are anything.
   */
  ghost predicate Survives(room: Room, l: Log, table: Contents) {
    && 1 <= l.drained <= l.issued <= |l.history| + 1
    && var drained, issued := MapOf(room, l.history[..l.drained - 1]), MapOf(room, l.history[..l.issued - 1]);
       && drained.Keys <= table.Keys <= issued.Keys
       && forall k :: k in table && !Touched(l.history, k, l.drained, l.issued) ==>
            k in drained && table[k] == drained[k]
  }

  /** The table after any number of the undrained writes is one such. */
  lemma PrefixSurvives(room: Room, l: Log, n: nat)
    requires 1 <= l.drained <= l.issued <= |l.history| + 1 && l.drained - 1 <= n < l.issued
    ensures Survives(room, l, MapOf(room, l.history[..n]))
  {
    var table := MapOf(room, l.history[..n]);
    MapGrows(room, l.history, l.drained - 1, n);
    MapGrows(room, l.history, n, l.issued - 1);
    forall k | k in table && !Touched(l.history, k, l.drained, l.issued)
      ensures k in MapOf(room, l.history[..l.drained - 1]) && table[k] == MapOf(room, l.history[..l.drained - 1])[k]
    {
      UntouchedLess(l.history, k, l.drained, n + 1, l.drained, l.issued);
      MapKeeps(room, l.history, l.drained - 1, n, k);
    }
  }

  /** The log has entry `q`, it is persistent and it counts as committed. */
  predicate Counts(l: Log, q: nat)
    requires |l.entries| == ENTRIES
  {
    q >= 1 && l.entries[q % ENTRIES].number == q && q < l.durable && q <= l.committed
  }

  /** Sets again, in order, what the log holds of the sets below number `n`. */
  function Replay(room: Room, l: Log, table: Contents, n: nat): Contents
    requires |l.entries| == ENTRIES
  {
    if n == 0 then table
    else
      var before := Replay(room, l, table, n - 1);
      if Counts(l, n - 1) then SetIn(room, before, l.entries[(n - 1) % ENTRIES].item) else before
  }

  function Recovered(room: Room, l: Log, table: Contents): Contents
    requires |l.entries| == ENTRIES
  {
    Replay(room, l, table, l.committed + 1)
  }

  /** The log's counted entries are the sets from number `lo` to before `hi`, which are all the undrained and more. */
  ghost predicate Covers(l: Log, lo: nat, hi: nat) {
    && |l.entries| == ENTRIES && 1 <= lo <= l.drained <= l.issued <= hi <= |l.history| + 1
    && (forall q: nat :: Counts(l, q) <==> lo <= q < hi)
    && (forall q: nat :: lo <= q < hi ==> l.entries[q % ENTRIES].item == l.history[q - 1])
  }

  /** Half-way through the replay: keys still to be set may hold anything, all others are as they will be. */
  ghost predicate Underway(room: Room, l: Log, hi: nat, q: nat, m: Contents)
    requires 1 <= q <= hi <= |l.history| + 1
  {
    var goal := MapOf(room, l.history[..hi - 1]);
    && MapOf(room, l.history[..q - 1]).Keys <= m.Keys <= goal.Keys
    && forall k :: k in m && !Touched(l.history, k, q, hi) ==> m[k] == goal[k]
  }

  lemma UntouchedLess(items: seq<Item>, k: nat, a: nat, b: nat, c: nat, d: nat)
    requires c <= a && b <= d && !Touched(items, k, c, d)
    ensures !Touched(items, k, a, b)
  {
  }

  lemma SurvivorValue(room: Room, l: Log, lo: nat, hi: nat, table: Contents, k: nat)
    requires 1 <= lo <= l.drained <= l.issued <= hi <= |l.history| + 1 && Survives(room, l, table)
    requires k in table && !Touched(l.history, k, lo, hi) && k in MapOf(room, l.history[..hi - 1])
    ensures table[k] == MapOf(room, l.history[..hi - 1])[k]
  {
    UntouchedLess(l.history, k, l.drained, l.issued, lo, hi);
    UntouchedLess(l.history, k, l.drained, hi, lo, hi);
    MapKeeps(room, l.history, l.drained - 1, hi - 1, k);
  }

  lemma SurvivorKeys(room: Room, items: seq<Item>, lo: nat, drained: nat, issued: nat, hi: nat, table: Contents)
    requires 1 <= lo <= drained <= issued <= hi <= |items| + 1
    requires MapOf(room, items[..drained - 1]).Keys <= table.Keys <= MapOf(room, items[..issued - 1]).Keys
    ensures MapOf(room, items[..lo - 1]).Keys <= table.Keys <= MapOf(room, items[..hi - 1]).Keys
  {
    MapGrows(room, items, lo - 1, drained - 1);
    MapGrows(room, items, issued - 1, hi - 1);
  }

  lemma SurvivorUnderway(room: Room, l: Log, lo: nat, hi: nat, table: Contents)
    requires 1 <= lo <= l.drained <= l.issued <= hi <= |l.history| + 1 && Survives(room, l, table)
    ensures Underway(room, l, hi, lo, table)
  {
    SurvivorKeys(room, l.history, lo, l.drained, l.issued, hi, table);
    var goal := MapOf(room, l.history[..hi - 1]);
    forall k | k in table && !Touched(l.history, k, lo, hi) ensures table[k] == goal[k] {
      SurvivorValue(room, l, lo, hi, table, k);
    }
  }

  /** A set that went through goes through again, and one that was refused is refused again. */
  lemma SameOutcome(room: Room, items: seq<Item>, hi: nat, q: nat, m: Contents)
    requires Monotone(room) && 1 <= q < hi <= |items| + 1
    requires MapOf(room, items[..q - 1]).Keys <= m.Keys <= MapOf(room, items[..hi - 1]).Keys
    ensures var item, goal := items[q - 1], MapOf(room, items[..hi - 1]);
            SetIn(room, m, item) == if item.key in goal then m[item.key := item.value] else m
    ensures MapOf(room, items[..q]).Keys <= SetIn(room, m, items[q - 1]).Keys <= MapOf(room, items[..hi - 1]).Keys
  {
    var key, before, goal := items[q - 1].key, MapOf(room, items[..q - 1]), MapOf(room, items[..hi - 1]);
    MapNext(room, items, q - 1);
    MapGrows(room, items, q, hi - 1);
    MapFits(room, items[..hi - 1]);
    if key in goal {
      assert m.Keys + {key} <= goal.Keys;
    } else {
      assert before.Keys + {key} <= m.Keys + {key};
    }
  }

  lemma ReplayOne(room: Room, l: Log, hi: nat, q: nat, m: Contents)
    requires Monotone(room) && 1 <= q < hi <= |l.history| + 1 && Underway(room, l, hi, q, m)
    ensures Underway(room, l, hi, q + 1, SetIn(room, m, l.history[q - 1]))
  {
    var items, item := l.history, l.history[q - 1];
    var goal, after := MapOf(room, items[..hi - 1]), SetIn(room, m, item);
    SameOutcome(room, items, hi, q, m);
    forall k | k in after && !Touched(items, k, q + 1, hi) ensures after[k] == goal[k] {
      if k == item.key {
        MapKeeps(room, items, q, hi - 1, k);
        MapNext(room, items, q - 1);
      } else {
        NotTouched(items, k, q, hi);
      }
    }
  }

  lemma NotTouched(items: seq<Item>, k: nat, q: nat, hi: nat)
    requires 1 <= q <= |items| && items[q - 1].key != k && !Touched(items, k, q + 1, hi)
    ensures !Touched(items, k, q, hi)
  {
  }

  lemma {:induction false} ReplayUnderway(room: Room, l: Log, lo: nat, hi: nat, table: Contents, q: nat)
    requires Monotone(room) && Covers(l, lo, hi) && Survives(room, l, table) && lo <= q <= hi
    ensures Underway(room, l, hi, q, Replay(room, l, table, q))
  {
    if q == lo {
      SkipUncounted(room, l, table, 0, lo);
      SurvivorUnderway(room, l, lo, hi, table);
    } else {
      ReplayUnderway(room, l, lo, hi, table, q - 1);
      assert Counts(l, q - 1);
      ReplayOne(room, l, hi, q - 1, Replay(room, l, table, q - 1));
    }
  }

  lemma {:induction false} SkipUncounted(room: Room, l: Log, table: Contents, a: nat, b: nat)
    requires |l.entries| == ENTRIES && a <= b && forall q: nat :: a <= q < b ==> !Counts(l, q)
    ensures Replay(room, l, table, b) == Replay(room, l, table, a)
    decreases b
  {
    if a == b {
    } else {
      SkipUncounted(room, l, table, a, b - 1);
      assert !Counts(l, b - 1);
    }
  }

  lemma UnderwayDone(room: Room, l: Log, hi: nat, m: Contents)
    requires 1 <= hi <= |l.history| + 1 && Underway(room, l, hi, hi, m)
    ensures m == MapOf(room, l.history[..hi - 1])
  {
    assert forall k :: !Touched(l.history, k, hi, hi);
  }

  /** Whatever survived of the table, the replay restores the map after all the sets the log covers. */
  lemma ReplayRestores(room: Room, l: Log, lo: nat, hi: nat, table: Contents)
    requires Monotone(room) && Covers(l, lo, hi) && Survives(room, l, table)
    ensures Recovered(room, l, table) == MapOf(room, l.history[..hi - 1])
  {
    ReplayUnderway(room, l, lo, hi, table, hi);
    UnderwayDone(room, l, hi, Replay(room, l, table, hi));
    ReplayEnds(room, l, table, hi);
  }

  /** Past the last entry that counts there is nothing to replay. */
  lemma ReplayEnds(room: Room, l: Log, table: Contents, hi: nat)
    requires |l.entries| == ENTRIES && forall q: nat :: q >= hi ==> !Counts(l, q)
    ensures Recovered(room, l, table) == Replay(room, l, table, hi)
  {
    if hi <= l.committed + 1 {
      SkipUncounted(room, l, table, hi, l.committed + 1);
    } else {
      SkipUncounted(room, l, table, l.committed + 1, hi);
    }
  }

  // ----- Wherever the crash falls -----

  /** Below the next number, the log holds exactly the sets from number `lo` on. */
  ghost predicate Stretch(l: Log, lo: nat) {
    && |l.entries| == ENTRIES && lo >= 1 && l.cur == |l.history| + 1
    && forall q: nat :: 1 <= q < l.cur ==>
         && (l.entries[q % ENTRIES].number == q <==> lo <= q)
         && (lo <= q ==> l.entries[q % ENTRIES].item == l.history[q - 1])
  }

  /** The number after the last one that counts. */
  function CountedTo(l: Log): nat {
    if l.durable <= l.committed then l.durable else l.committed + 1
  }

  lemma StretchRestores(room: Room, l: Log, lo: nat, table: Contents)
    requires Monotone(room) && Stretch(l, lo)
    requires lo <= l.drained <= l.issued <= CountedTo(l) <= l.cur && l.durable <= l.cur && Survives(room, l, table)
    ensures Recovered(room, l, table) == MapOf(room, l.history[..CountedTo(l) - 1])
  {
    assert Covers(l, lo, CountedTo(l));
    ReplayRestores(room, l, lo, CountedTo(l), table);
  }

  function Oldest(cur: nat): nat {
    if cur > ENTRIES then cur - ENTRIES else 1
  }

  lemma WindowStretch(l: Log)
    requires Window(l)
    ensures Stretch(l, Oldest(l.cur))
  {
    forall q: nat | 1 <= q < l.cur
      ensures l.entries[q % ENTRIES].number == q <==> Oldest(l.cur) <= q
      ensures Oldest(l.cur) <= q ==> l.entries[q % ENTRIES].item == l.history[q - 1]
    {
      assert Held(l, q) && SlotOk(l, q % ENTRIES);
    }
  }

  /** An entry written and not yet counted takes the place of the oldest. */
  lemma WrittenStretch(l: Log, item: Item)
    requires Window(l)
    ensures Stretch(Written(l, item), Oldest(l.cur + 1))
  {
    var w := Written(l, item);
    WindowStretch(l);
    forall q: nat | 1 <= q < w.cur
      ensures w.entries[q % ENTRIES].number == q <==> Oldest(l.cur + 1) <= q
      ensures Oldest(l.cur + 1) <= q ==> w.entries[q % ENTRIES].item == w.history[q - 1]
    {
      if l.cur <= q + ENTRIES { Laps(q, l.cur); }
    }
  }

  /** Between batches, whatever part of the undrained writes survives, recovery restores the map after every set. */
  lemma RecoversBetween(room: Room, l: Log, o: Options, table: Contents)
    requires Monotone(room) && Ok(l, o) && Survives(room, l, table)
    ensures Recovered(room, l, table) == MapOf(room, l.history)
  {
    WindowStretch(l);
    StretchRestores(room, l, Oldest(l.cur), table);
    assert l.history[..l.cur - 1] == l.history;
  }

  /** All sets of the batches, in order. */
  function All(batches: seq<seq<Item>>): seq<Item> {
    if batches == [] then [] else All(batches[..|batches| - 1]) + batches[|batches| - 1]
  }

  lemma {:induction false} AfterHistory(o: Options, batches: seq<seq<Item>>)
    ensures After(o, batches).history == All(batches)
  {
    if batches == [] {
    } else {
      AfterHistory(o, batches[..|batches| - 1]);
    }
  }

  /** The log of a moment between two sets of a batch, or with the next entry written, drained or not. */
  ghost predicate LoggingFrom(l: Log, s: Log, o: Options, items: seq<Item>, next: Item)
    requires |s.entries| == ENTRIES
  {
    var r := LogSets(s, o, items);
    l == r || l == Drain(r) || l == Written(r, next) || l == Drain(Written(r, next))
  }

  ghost predicate WhileLogging(l: Log, o: Options, batches: seq<seq<Item>>, items: seq<Item>, next: Item) {
    LoggingFrom(l, After(o, batches), o, items, next)
  }

  /** What counts there, and how far the table is behind. */
  ghost predicate MarksOk(l: Log, s: Log, o: Options) {
    && l.drained <= l.issued <= CountedTo(l) <= l.cur <= l.drained + 2 * MAX_BATCH && l.durable <= l.cur
    && if o.redoBatch then s.cur <= CountedTo(l) <= s.cur + 1 else CountedTo(l) == l.cur
  }

  lemma LoggingMarks(l: Log, s: Log, o: Options, items: seq<Item>, next: Item)
    requires Ok(s, o) && |items| <= MAX_BATCH && LoggingFrom(l, s, o, items, next)
    ensures MarksOk(l, s, o) && l.cur == s.cur + |items| && l.history == s.history + items
  {
    LogSetsMarks(s, o, items);
  }

  lemma LoggingStretch(l: Log, s: Log, o: Options, items: seq<Item>, next: Item) returns (lo: nat)
    requires Ok(s, o) && LoggingFrom(l, s, o, items, next)
    ensures Stretch(l, lo) && lo <= Oldest(l.cur + 1)
  {
    var r := LogSets(s, o, items);
    LogSetsWindow(s, o, items);
    if l == r || l == Drain(r) {
      lo := Oldest(r.cur);
      WindowStretch(r);
    } else {
      lo := Oldest(r.cur + 1);
      WrittenStretch(r, next);
    }
  }

  /**
   A crash while a batch is logged. Recovery restores the map after a prefix of the sets: at least those of the
   batches that returned, at most those logged so far. Without redo-log batching it is all of these; with it, none of
   the batch, or the first entry alone, which the committed number takes in.
   */
  lemma RecoversWhileLogging(
    room: Room, l: Log, o: Options, batches: seq<seq<Item>>, items: seq<Item>, next: Item, table: Contents)
    requires Monotone(room) && Bounded(batches) && |items| <= MAX_BATCH && WhileLogging(l, o, batches, items, next)
    requires Survives(room, l, table) && |l.entries| == ENTRIES
    ensures exists n :: |All(batches)| <= n <= |All(batches) + items|
              && (if o.redoBatch then n <= |All(batches)| + 1 else n == |All(batches) + items|)
              && Recovered(room, l, table) == MapOf(room, (All(batches) + items)[..n])
  {
    var s := After(o, batches);
    AfterHistory(o, batches);
    AfterOk(o, batches);
    LoggingMarks(l, s, o, items, next);
    var lo := LoggingStretch(l, s, o, items, next);
    StretchRestores(room, l, lo, table);
  }

  /** The log of a moment after the commit, with the first `k` sets of the batch written to the table. */
  function WhileApplying(o: Options, batches: seq<seq<Item>>, items: seq<Item>, k: nat): (l: Log)
    ensures |l.entries| == ENTRIES
  {
    Apply(Commit(LogSets(After(o, batches), o, items), o, |items|), o, k)
  }

  lemma ApplyingCovers(o: Options, batches: seq<seq<Item>>, items: seq<Item>, k: nat) returns (lo: nat)
    requires Bounded(batches) && k <= |items| <= MAX_BATCH
    ensures var l := WhileApplying(o, batches, items, k);
            && Stretch(l, lo) && lo <= l.drained <= l.issued <= CountedTo(l) == l.cur == l.durable
            && l.history == All(batches) + items == l.history[..CountedTo(l) - 1]
  {
    var s := After(o, batches);
    var r := LogSets(s, o, items);
    AfterHistory(o, batches);
    AfterOk(o, batches);
    LogSetsWindow(s, o, items);
    LogSetsMarks(s, o, items);
    lo := Oldest(r.cur);
    WindowStretch(r);
  }

  /** From the commit on, whatever part of the table writes survives, recovery restores the map after every set. */
  lemma RecoversOnceCommitted(
    room: Room, o: Options, batches: seq<seq<Item>>, items: seq<Item>, k: nat, table: Contents)
    requires Monotone(room) && Bounded(batches) && k <= |items| <= MAX_BATCH
    requires Survives(room, WhileApplying(o, batches, items, k), table)
    ensures Recovered(room, WhileApplying(o, batches, items, k), table) == MapOf(room, All(batches) + items)
  {
    var l := WhileApplying(o, batches, items, k);
    var lo := ApplyingCovers(o, batches, items, k);
    StretchRestores(room, l, lo, table);
  }
}
