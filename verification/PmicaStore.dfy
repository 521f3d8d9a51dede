/** The persistent hash table with its redo log: one batch logs its sets, commits them and writes them to the table. */
module PmicaStore {
  import PmicaRoom
  import PmicaTable
  import opened Pmica
  import opened Recovery
  import RedoLog

  function ToLog(op: Op): RedoLog.Op {
    match op
    case Get(key) => RedoLog.Get(key)
    case Set(key, value) => RedoLog.Set(RedoLog.Item(key, value))
  }

  function ToLogAll(ops: seq<Op>): (r: seq<RedoLog.Op>)
    ensures |r| == |ops| && forall i :: 0 <= i < |ops| ==> r[i] == ToLog(ops[i])
  {
    seq(|ops|, i requires 0 <= i < |ops| => ToLog(ops[i]))
  }

  /** What a batch sets. */
  function Items(ops: seq<Op>): seq<RedoLog.Item> {
    RedoLog.Sets(ToLogAll(ops))
  }

  lemma RoomMonotone(hash: PmicaTable.Key -> nat, regular: nat, extra: nat)
    ensures Monotone(keys => PmicaRoom.Fits(keys, hash, regular, extra))
  {
    forall small: set<nat>, large: set<nat> | small <= large && PmicaRoom.Fits(large, hash, regular, extra)
      ensures PmicaRoom.Fits(small, hash, regular, extra)
    {
      PmicaRoom.FitsLess(small, large, hash, regular, extra);
    }
  }

  lemma ItemsNext(history: seq<RedoLog.Item>, ops: seq<Op>)
    requires ops != []
    ensures var n := |ops| - 1;
            history + Items(ops) ==
              if ops[n].Set? then history + Items(ops[..n]) + [RedoLog.Item(ops[n].key, ops[n].value)]
              else history + Items(ops[..n])
  {
    assert ToLogAll(ops)[..|ops| - 1] == ToLogAll(ops[..|ops| - 1]);
  }

  lemma AnsweredPrefix(room: Room, m: Contents, ops: seq<Op>, results: seq<Result>, n: nat)
    requires |ops| == |results| && n <= |ops|
    requires forall i :: 0 <= i < |ops| ==> Answered(room, m, ops, results, i)
    ensures forall i :: 0 <= i < n ==> Answered(room, m, ops[..n], results[..n], i)
  {
    forall i | 0 <= i < n ensures Answered(room, m, ops[..n], results[..n], i) {
      assert Answered(room, m, ops, results, i);
      assert ops[..n][..i] == ops[..i] && results[..n][..i] == results[..i];
    }
  }

  lemma MapSnoc(room: Room, items: seq<RedoLog.Item>, item: RedoLog.Item)
    ensures MapOf(room, items + [item]) == SetIn(room, MapOf(room, items), item)
  {
    assert (items + [item])[..|items|] == items;
  }

  /** The table after a batch is the map after everything logged. */
  lemma {:induction false} BatchMap(room: Room, history: seq<RedoLog.Item>, ops: seq<Op>, results: seq<Result>)
    requires |ops| == |results|
    requires forall i :: 0 <= i < |ops| ==> Answered(room, MapOf(room, history), ops, results, i)
    ensures After(MapOf(room, history), ops, results) == MapOf(room, history + Items(ops))
  {
    if ops == [] {
      assert history + Items(ops) == history;
    } else {
      var n := |ops| - 1;
      AnsweredPrefix(room, MapOf(room, history), ops, results, n);
      BatchMap(room, history, ops[..n], results[..n]);
      assert Answered(room, MapOf(room, history), ops, results, n);
      ItemsNext(history, ops);
      if ops[n].Set? { MapSnoc(room, history + Items(ops[..n]), RedoLog.Item(ops[n].key, ops[n].value)); }
    }
  }

  class Store {
    const log: RedoLog.Writer
    const table: HashMap

    ghost predicate Valid()
      reads this, log, log.entries, table, table.buckets
    {
      && log.Valid() && table.Valid() && log.entries as object != table.buckets as object
      && table.Map() == MapOf(table.Room(), log.history)
    }

    constructor (options: RedoLog.Options, regular: nat, extra: nat, hash: PmicaTable.Key -> nat)
      requires regular >= 1
      ensures Valid() && log.history == [] && log.options == options
    {
      log := new RedoLog.Writer(options);
      table := new HashMap(regular, extra, hash);
    }

    /**
     Logs the sets, commits them, then runs the operations on the table. Whatever part of the writes that are not
     drained a crash leaves behind, recovery afterwards restores exactly the table's map.
     */
    method BatchOpDrain(ops: seq<Op>) returns (results: seq<Result>)
      requires Valid() && |ops| <= RedoLog.MAX_BATCH
      requires forall i :: 0 <= i < |ops| ==> ops[i].key != PmicaTable.INVALID
      modifies log, log.entries, table, table.buckets
      ensures Valid() && |results| == |ops| && log.history == old(log.history) + Items(ops)
      ensures forall i :: 0 <= i < |ops| ==> Answered(table.Room(), old(table.Map()), ops, results, i)
      ensures forall left :: Survives(table.Room(), log.View(), left) ==>
                Recovered(table.Room(), log.View(), left) == table.Map()
    {
      ghost var history := log.history;
      log.BatchOpDrain(ToLogAll(ops));
      results := table.BatchOp(ops);
      BatchMap(table.Room(), history, ops, results);
      RoomMonotone(table.hash, table.regular, table.extra);
      forall left | Survives(table.Room(), log.View(), left)
        ensures Recovered(table.Room(), log.View(), left) == table.Map()
      {
        RecoversBetween(table.Room(), log.View(), log.options, left);
      }
    }
  }
}
