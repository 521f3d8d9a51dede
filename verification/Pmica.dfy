/** The persistent hash table as an object that changes its buckets in place, proved to be a map. */
module Pmica {
  import opened PmicaTable
  import opened PmicaRoom

  datatype Op = Get(key: Key) | Set(key: Key, value: Value)

  datatype Result = Result(ok: bool, value: Value)

  /** Bucket `p` has no slot with this key. */
  ghost predicate Lacks(t: Table, p: nat, key: Key)
    requires p < |t.buckets|
  {
    forall i :: 0 <= i < |t.buckets[p].slots| ==> t.buckets[p].slots[i].key != key
  }

  ghost predicate ChainLacks(t: Table, x: Index, r: nat, key: Key)
    requires Shape(t, x) && r < t.regular && ChainOk(t, x, r)
  {
    forall j :: 0 <= j < |x.chains[r]| ==> (assert LinkOk(t, x, r, j); Lacks(t, x.chains[r][j], key))
  }

  /** Looking along one chain is enough to know the key is nowhere in the table. */
  lemma AbsentFromChain(t: Table, x: Index, hash: Key -> nat, key: Key)
    requires Ok(t, x, hash) && ChainOk(t, x, hash(key) % t.regular)
    ensures ChainLacks(t, x, hash(key) % t.regular, key) && key != INVALID ==> key !in x.locs
  {
    var r := hash(key) % t.regular;
    if key in x.locs && key != INVALID {
      assert LocOk(t, x, key);
      var p, i := x.locs[key].bucket, x.locs[key].slot;
      assert SlotOk(t, x, hash, p, i) && PlaceOk(t, x, p);
      var j := x.places[p].at;
      assert LinkOk(t, x, r, j);
      assert x.chains[r][j] == p && !Lacks(t, p, key);
    }
  }

  lemma ChainFull(t: Table, x: Index, hash: Key -> nat, r: nat)
    requires Ok(t, x, hash) && r < t.regular && Tight(t, x, hash, r) && ChainOk(t, x, r)
    ensures ChainLacks(t, x, r, INVALID) <==> UsedLast(t, x, r) == SLOTS
  {
    forall j | 0 <= j < |x.chains[r]|
      ensures x.chains[r][j] < |t.buckets|
      ensures Lacks(t, x.chains[r][j], INVALID) <==> Used(SlotsAt(t, x, r, j)) == SLOTS
    {
      assert LinkOk(t, x, r, j);
      UsedAll(t.buckets[x.chains[r][j]].slots);
    }
    assert x.chains[r][|x.chains[r]| - 1] < |t.buckets|;
  }

  /** The table is full for a new key exactly when the keys with that one no longer fit. */
  lemma FullIff(t: Table, x: Index, hash: Key -> nat, extra: nat, key: Key)
    requires Ok(t, x, hash) && Dense(t, x, hash, extra) && key !in x.locs
    ensures ChainOk(t, x, hash(key) % t.regular)
    ensures t.free == [] && ChainLacks(t, x, hash(key) % t.regular, INVALID)
            <==> !Fits(x.locs.Keys + {key}, hash, t.regular, extra)
  {
    assert ChainOk(t, x, hash(key) % t.regular) && Tight(t, x, hash, hash(key) % t.regular);
    RoomIff(t, x, hash, extra, key);
    ChainFull(t, x, hash, hash(key) % t.regular);
  }

  /** An empty table has no gaps. */
  lemma EmptyDense(t: Table, x: Index, hash: Key -> nat)
    requires Ok(t, x, hash) && x.locs == map[]
    requires forall r: nat :: r < t.regular ==> Length(x, r) == 1
    requires forall p :: 0 <= p < |t.buckets| ==> Empty(t.buckets[p])
    ensures Dense(t, x, hash, |t.free|)
  {
    forall r: nat | r < t.regular ensures Tight(t, x, hash, r) && Snug(t, x, r) {
      assert ChainOk(t, x, r) && LinkOk(t, x, r, 0);
      UsedAll(SlotsAt(t, x, r, 0));
      assert KeysAt(x.locs.Keys, hash, t.regular, r) == {};
    }
    NoneInChains(x, t.regular);
  }

  lemma {:induction false} NoneInChains(x: Index, n: nat)
    requires forall r: nat :: r < n ==> Length(x, r) == 1
    ensures InChains(x, n) == 0
  {
    if n == 0 {
    } else {
      NoneInChains(x, n - 1);
    }
  }

  /** The map after the sets that succeeded. */
  ghost function After(m: map<Key, Value>, ops: seq<Op>, results: seq<Result>): map<Key, Value>
    requires |ops| == |results|
  {
    if ops == [] then m else
      var n := |ops| - 1;
      var before := After(m, ops[..n], results[..n]);
      if ops[n].Set? && results[n].ok then before[ops[n].key := ops[n].value] else before
  }

  /** Each operation answers from the map left by the sets before it: a set succeeds if its key is there or fits. */
  ghost predicate Answered(
    room: set<Key> -> bool, m: map<Key, Value>, ops: seq<Op>, results: seq<Result>, i: nat)
    requires |ops| == |results| && i < |ops|
  {
    AnsweredFrom(room, After(m, ops[..i], results[..i]), ops[i], results[i])
  }

  predicate AnsweredFrom(room: set<Key> -> bool, now: map<Key, Value>, op: Op, result: Result) {
    match op
    case Get(key) => (result.ok <==> key in now) && (result.ok ==> result.value == now[key])
    case Set(key, _) => result.ok <==> key in now || room(now.Keys + {key})
  }

  /** One more operation, answered from the map so far. */
  lemma AnsweredSnoc(
    room: set<Key> -> bool, m: map<Key, Value>, ops: seq<Op>, results: seq<Result>, op: Op, result: Result)
    requires |ops| == |results| && forall i :: 0 <= i < |ops| ==> Answered(room, m, ops, results, i)
    requires AnsweredFrom(room, After(m, ops, results), op, result)
    ensures forall i :: 0 <= i <= |ops| ==> Answered(room, m, ops + [op], results + [result], i)
    ensures After(m, ops + [op], results + [result])
            == if op.Set? && result.ok then After(m, ops, results)[op.key := op.value] else After(m, ops, results)
  {
    var ops', results' := ops + [op], results + [result];
    assert ops'[..|ops|] == ops && results'[..|ops|] == results;
    forall i | 0 <= i <= |ops| ensures Answered(room, m, ops', results', i) {
      if i < |ops| {
        assert Answered(room, m, ops, results, i);
        assert ops'[..i] == ops[..i] && results'[..i] == results[..i];
      }
    }
  }

  method IndexOf(slots: seq<Slot>, key: Key) returns (i: nat)
    ensures i <= |slots|
    ensures i < |slots| ==> slots[i].key == key
    ensures i == |slots| ==> forall h :: 0 <= h < |slots| ==> slots[h].key != key
  {
    i := 0;
    while i < |slots|
      invariant i <= |slots| && forall h :: 0 <= h < i ==> slots[h].key != key
    {
      if slots[i].key == key { return; }
      i := i + 1;
    }
  }

  class HashMap {
    const regular: nat
    const extra: nat
    const hash: Key -> nat
    const buckets: array<Bucket>
    var free: seq<nat>
    ghost var index: Index

    ghost function View(): Table
      reads this, buckets
    {
      Table(regular, buckets[..], free)
    }

    ghost predicate Sound()
      reads this, buckets
    {
      Ok(View(), index, hash)
    }

    ghost predicate Valid()
      reads this, buckets
    {
      Sound() && Dense(View(), index, hash, extra)
    }

    ghost function Map(): map<Key, Value>
      requires Sound()
      reads this, buckets
    {
      Contents(View(), index)
    }

    /** Whether keys fit into the table. */
    ghost function Room(): set<Key> -> bool {
      keys => Fits(keys, hash, regular, extra)
    }

    /** Neither an empty slot in the key's chain nor an extra bucket to add to it. */
    ghost predicate Full(key: Key)
      requires Sound()
      reads this, buckets
    {
      assert ChainOk(View(), index, hash(key) % regular);
      free == [] && ChainLacks(View(), index, hash(key) % regular, INVALID)
    }

    constructor (regular: nat, extra: nat, hash: Key -> nat)
      requires regular >= 1
      ensures Valid() && Map() == map[]
      ensures this.regular == regular && this.extra == extra && this.hash == hash && fresh(buckets)
    {
      this.regular, this.extra, this.hash := regular, extra, hash;
      var blank := Bucket(0, seq(SLOTS, _ => Slot(INVALID, 0)));
      buckets := new Bucket[regular + extra](_ => blank);
      free := seq(extra, i requires 0 <= i => i + 1);
      index := Index(seq(regular, r requires 0 <= r => [r]),
                     seq(regular + extra, p requires 0 <= p =>
                       if p < regular then InChain(p, 0) else OnFreeList(p - regular)),
                     map[]);
      new;
      forall r | 0 <= r < regular ensures ChainOk(View(), index, r) { assert LinkOk(View(), index, r, 0); }
      EmptyDense(View(), index, hash);
    }

    /** Walks the chain; with no match, `located` is the chain's last bucket. */
    method FindItemIndex(start: nat, key: Key) returns (located: nat, slot: nat)
      requires Sound() && start < regular
      ensures located < buckets.Length && slot <= SLOTS
      ensures index.places[located].InChain? && index.places[located].chain == start
      ensures slot < SLOTS ==> buckets[located].slots[slot].key == key
      ensures ChainOk(View(), index, start)
      ensures slot == SLOTS ==> ChainLacks(View(), index, start, key) && located == EndOf(index, start)
    {
      ghost var t, x := View(), index;
      assert ChainOk(t, x, start);
      located := start;
      ghost var j := 0;
      while true
        invariant j < |x.chains[start]| && located == x.chains[start][j] && located < buckets.Length
        invariant forall h :: 0 <= h < j ==> (assert LinkOk(t, x, start, h); Lacks(t, x.chains[start][h], key))
        decreases |x.chains[start]| - j
      {
        assert LinkOk(t, x, start, j);
        slot := IndexOf(buckets[located].slots, key);
        if slot < SLOTS { return; }
        assert Lacks(t, located, key);
        if buckets[located].next == 0 { return; }
        located := Position(regular, buckets[located].next);
        j := j + 1;
        assert LinkOk(t, x, start, j);
      }
    }

    method Get(key: Key) returns (found: bool, value: Value)
      requires Sound() && key != INVALID
      ensures found <==> key in Map()
      ensures found ==> value == Map()[key]
    {
      var located, slot := FindItemIndex(hash(key) % regular, key);
      if slot == SLOTS {
        AbsentFromChain(View(), index, hash, key);
        return false, 0;
      }
      assert SlotOk(View(), index, hash, located, slot) && LocOk(View(), index, key);
      return true, buckets[located].slots[slot].value;
    }

    /** Takes the last free bucket and hangs it off the end of chain `r`. */
    method AllocExtraBucket(ghost r: nat, end: nat) returns (ok: bool)
      requires Sound() && r < regular && ChainOk(View(), index, r) && end == EndOf(index, r)
      modifies this, buckets
      ensures Sound() && Map() == old(Map()) && index.locs == old(index.locs)
      ensures ok <==> old(free) != []
      ensures !ok ==> View() == old(View()) && index == old(index)
      ensures ok ==> Extensible(old(View()), old(index), r) && View() == Extend(old(View()), end)
      ensures ok ==> index == ExtendIndex(old(View()), old(index), r)
      ensures ok ==> end < buckets.Length && buckets[end].next >= 1
      ensures ok ==> var p := Position(regular, buckets[end].next);
                     p < buckets.Length && Empty(buckets[p]) && index.places[p].InChain? && index.places[p].chain == r
    {
      if free == [] { return false; }
      ghost var t, x := View(), index;
      ExtendOk(t, x, hash, r);
      var number := free[|free| - 1];
      free := free[..|free| - 1];
      buckets[end] := buckets[end].(next := number);
      index := ExtendIndex(t, x, r);
      assert View() == Extend(t, end);
      return true;
    }

    method GetEmpty(start: nat) returns (located: nat, slot: nat)
      requires Valid() && start < regular
      modifies this, buckets
      ensures Sound() && Map() == old(Map()) && index.locs == old(index.locs)
      ensures NearlyDense(View(), index, hash, extra, start)
      ensures ChainOk(old(View()), old(index), start)
      ensures slot <= SLOTS
      ensures slot == SLOTS <==> old(free) == [] && ChainLacks(old(View()), old(index), start, INVALID)
      ensures slot == SLOTS ==> View() == old(View()) && index == old(index)
      ensures slot < SLOTS ==> && located < buckets.Length && buckets[located].slots[slot].key == INVALID
                               && index.places[located].InChain? && index.places[located].chain == start
    {
      located, slot := FindItemIndex(start, INVALID);
      if slot < SLOTS {
        assert PlaceOk(View(), index, located);
        assert LinkOk(View(), index, start, index.places[located].at);
        assert !Lacks(View(), located, INVALID);
        return;
      }
      ghost var t, x := View(), index;
      assert Tight(t, x, hash, start);
      ChainFull(t, x, hash, start);
      var ok := AllocExtraBucket(start, located);
      if ok {
        ExtendDense(t, x, hash, extra, start);
        located, slot := Position(regular, buckets[located].next), 0;
      }
    }

    /** Stores to the slot that holds the key already. */
    method Rewrite(located: nat, slot: nat, key: Key, value: Value)
      requires Valid() && located < buckets.Length && slot < SLOTS
      requires key != INVALID && buckets[located].slots[slot].key == key
      modifies buckets
      ensures Valid() && Map() == old(Map())[key := value]
    {
      ghost var t := View();
      assert SlotOk(t, index, hash, located, slot) && PlaceOk(t, index, located);
      Overwrite(t, index, hash, key, value);
      OverwriteDense(t, index, hash, extra, hash(key) % regular, index.places[located].at, slot, Slot(key, value));
      buckets[located] := buckets[located].(slots := buckets[located].slots[slot := Slot(key, value)]);
      assert View() == SetSlot(t, located, slot, Slot(key, value));
    }

    /** Stores to an empty slot of the key's chain. */
    method Insert(located: nat, slot: nat, key: Key, value: Value)
      requires Sound() && NearlyDense(View(), index, hash, extra, hash(key) % regular)
      requires key != INVALID && key !in Map() && located < buckets.Length && slot < SLOTS
      requires buckets[located].slots[slot].key == INVALID
      requires index.places[located].InChain? && index.places[located].chain == hash(key) % regular
      modifies this, buckets
      ensures Valid() && Map() == old(Map())[key := value]
    {
      ghost var t := View();
      Fill(t, index, hash, located, slot, key, value);
      FillDense(t, index, hash, extra, located, slot, key, value);
      index := index.(locs := index.locs[key := Loc(located, slot)]);
      buckets[located] := buckets[located].(slots := buckets[located].slots[slot := Slot(key, value)]);
      assert View() == SetSlot(t, located, slot, Slot(key, value));
    }

    /** A set changes exactly one key, and fails only for a new key with no slot to go to. */
    method SetNoDrain(key: Key, value: Value) returns (ok: bool)
      requires Valid() && key != INVALID
      modifies this, buckets
      ensures Valid()
      ensures ok <==> key in old(Map()) || !old(Full(key))
      ensures ok <==> key in old(Map()) || Room()(old(Map().Keys) + {key})
      ensures Map() == if ok then old(Map())[key := value] else old(Map())
    {
      var home := hash(key) % regular;
      var located, slot := FindItemIndex(home, key);
      if slot == SLOTS {
        AbsentFromChain(View(), index, hash, key);
        FullIff(View(), index, hash, extra, key);
        assert Map().Keys == index.locs.Keys;
        located, slot := GetEmpty(home);
        if slot == SLOTS { return false; }
        Insert(located, slot, key, value);
      } else {
        assert SlotOk(View(), index, hash, located, slot);
        Rewrite(located, slot, key, value);
      }
      return true;
    }

    /** The second loop of a batch: every operation in turn, gets seeing the sets before them. */
    method BatchOp(ops: seq<Op>) returns (results: seq<Result>)
      requires Valid() && forall i :: 0 <= i < |ops| ==> ops[i].key != INVALID
      modifies this, buckets
      ensures Valid() && |results| == |ops|
      ensures Map() == After(old(Map()), ops, results)
      ensures forall i :: 0 <= i < |ops| ==> Answered(Room(), old(Map()), ops, results, i)
    {
      results := [];
      ghost var m := Map();
      for n := 0 to |ops|
        invariant Valid() && |results| == n
        invariant Map() == After(m, ops[..n], results)
        invariant forall i :: 0 <= i < n ==> Answered(Room(), m, ops[..n], results, i)
      {
        var result;
        match ops[n] {
          case Get(key) =>
            var found, value := Get(key);
            result := Result(found, value);
          case Set(key, value) =>
            var ok := SetNoDrain(key, value);
            result := Result(ok, value);
        }
        AnsweredSnoc(Room(), m, ops[..n], results, ops[n], result);
        assert ops[..n + 1] == ops[..n] + [ops[n]];
        results := results + [result];
      }
      assert ops[..|ops|] == ops;
    }
  }
}
