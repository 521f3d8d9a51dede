/**
 How much the persistent hash table can hold. Chains are filled without gaps, so whether a new key finds room depends
 only on how many keys there are for each chain.
 */
module PmicaRoom {
  import opened PmicaTable

  /** The extra buckets of a chain with this many keys. */
  function Need(count: nat): nat {
    if count == 0 then 0 else (count - 1) / SLOTS
  }

  function KeysAt(keys: set<Key>, hash: Key -> nat, regular: nat, r: nat): set<Key>
    requires regular >= 1
  {
    set k | k in keys && hash(k) % regular == r
  }

  /** The extra buckets of the first `n` chains. */
  function Needed(keys: set<Key>, hash: Key -> nat, regular: nat, n: nat): nat
    requires regular >= 1
  {
    if n == 0 then 0 else Needed(keys, hash, regular, n - 1) + Need(|KeysAt(keys, hash, regular, n - 1)|)
  }

  /** These keys fit into a table of this size. */
  predicate Fits(keys: set<Key>, hash: Key -> nat, regular: nat, extra: nat) {
    regular >= 1 && Needed(keys, hash, regular, regular) <= extra
  }

  lemma SubsetSize<T>(a: set<T>, b: set<T>)
    requires a <= b
    ensures |a| <= |b|
  {
    assert b == a + (b - a);
  }

  lemma NeedGrows(a: nat, b: nat)
    requires a <= b
    ensures Need(a) <= Need(b)
  {
  }

  /** Fewer keys never need more. */
  lemma {:induction false} NeededGrows(small: set<Key>, large: set<Key>, hash: Key -> nat, regular: nat, n: nat)
    requires regular >= 1 && small <= large
    ensures Needed(small, hash, regular, n) <= Needed(large, hash, regular, n)
  {
    if n == 0 {
    } else {
      NeededGrows(small, large, hash, regular, n - 1);
      SubsetSize(KeysAt(small, hash, regular, n - 1), KeysAt(large, hash, regular, n - 1));
      NeedGrows(|KeysAt(small, hash, regular, n - 1)|, |KeysAt(large, hash, regular, n - 1)|);
    }
  }

  lemma FitsLess(small: set<Key>, large: set<Key>, hash: Key -> nat, regular: nat, extra: nat)
    requires small <= large && Fits(large, hash, regular, extra)
    ensures Fits(small, hash, regular, extra)
  {
    NeededGrows(small, large, hash, regular, regular);
  }

  lemma KeysAtAdds(keys: set<Key>, hash: Key -> nat, regular: nat, r: nat, key: Key)
    requires regular >= 1 && key !in keys
    ensures |KeysAt(keys + {key}, hash, regular, r)|
            == |KeysAt(keys, hash, regular, r)| + if hash(key) % regular == r then 1 else 0
  {
    var before, after := KeysAt(keys, hash, regular, r), KeysAt(keys + {key}, hash, regular, r);
    if hash(key) % regular == r {
      assert after == before + {key};
    } else {
      assert after == before;
    }
  }

  /** One more key needs one more bucket, or none, in its own chain. */
  lemma {:induction false} NeededAdds(keys: set<Key>, hash: Key -> nat, regular: nat, key: Key, n: nat)
    requires regular >= 1 && key !in keys
    ensures var home := hash(key) % regular;
            var count := |KeysAt(keys, hash, regular, home)|;
            Needed(keys + {key}, hash, regular, n)
            == Needed(keys, hash, regular, n) + if home < n then Need(count + 1) - Need(count) else 0
  {
    if n == 0 {
    } else {
      NeededAdds(keys, hash, regular, key, n - 1);
      KeysAtAdds(keys, hash, regular, n - 1, key);
    }
  }

  // ----- Chains without gaps -----

  /** The occupied slots. */
  function Used(slots: seq<Slot>): (n: nat)
    ensures n <= |slots|
  {
    if slots == [] then 0 else Used(slots[..|slots| - 1]) + if slots[|slots| - 1].key == INVALID then 0 else 1
  }

  lemma {:induction false} UsedAll(slots: seq<Slot>)
    ensures Used(slots) == |slots| <==> forall i :: 0 <= i < |slots| ==> slots[i].key != INVALID
    ensures Used(slots) == 0 <==> forall i :: 0 <= i < |slots| ==> slots[i].key == INVALID
  {
    if slots == [] {
    } else {
      UsedAll(slots[..|slots| - 1]);
      var last := |slots| - 1;
      assert forall i :: 0 <= i < last ==> slots[i] == slots[..last][i];
    }
  }

  lemma {:induction false} UsedUpdate(slots: seq<Slot>, i: nat, slot: Slot)
    requires i < |slots| && slot.key != INVALID
    ensures Used(slots[i := slot]) == Used(slots) + if slots[i].key == INVALID then 1 else 0
  {
    var last := |slots| - 1;
    if i == last {
      assert slots[i := slot][..last] == slots[..last];
    } else {
      UsedUpdate(slots[..last], i, slot);
      assert slots[i := slot][..last] == slots[..last][i := slot];
    }
  }

  /** The slots of the bucket at place `j` of chain `r`, where there is one. */
  function SlotsAt(t: Table, x: Index, r: nat, j: int): (slots: seq<Slot>)
  {
    if r < |x.chains| && 0 <= j < |x.chains[r]| && x.chains[r][j] < |t.buckets|
    then t.buckets[x.chains[r][j]].slots else []
  }

  function Length(x: Index, r: nat): nat {
    if r < |x.chains| then |x.chains[r]| else 0
  }

  /** The occupied slots of the chain's last bucket. */
  function UsedLast(t: Table, x: Index, r: nat): nat {
    Used(SlotsAt(t, x, r, Length(x, r) - 1))
  }

  /** Only the last bucket of the chain may have empty slots, and the chain holds all the keys of its hash. */
  ghost predicate Tight(t: Table, x: Index, hash: Key -> nat, r: nat)
    requires t.regular >= 1
  {
    && Length(x, r) >= 1 && UsedLast(t, x, r) <= SLOTS
    && (forall j :: 0 <= j < Length(x, r) - 1 ==> Used(SlotsAt(t, x, r, j)) == SLOTS)
    && |KeysAt(x.locs.Keys, hash, t.regular, r)| == SLOTS * (Length(x, r) - 1) + UsedLast(t, x, r)
  }

  /** A chain has no empty extra bucket. */
  ghost predicate Snug(t: Table, x: Index, r: nat) {
    Length(x, r) == 1 || UsedLast(t, x, r) > 0
  }

  /** The extra buckets in the first `n` chains. */
  ghost function InChains(x: Index, n: nat): int {
    if n == 0 then 0 else InChains(x, n - 1) + Length(x, n - 1) - 1
  }

  /** Every extra bucket is on the free list or in a chain that needs it. */
  ghost predicate Dense(t: Table, x: Index, hash: Key -> nat, extra: nat) {
    && t.regular >= 1
    && (forall r: nat :: r < t.regular ==> Tight(t, x, hash, r) && Snug(t, x, r))
    && |t.free| + InChains(x, t.regular) == extra
  }

  /** A tight, snug chain has as many extra buckets as its keys need, and is full if one more key needs one more. */
  lemma ChainNeeds(count: nat, length: nat, used: nat)
    requires length >= 1 && used <= SLOTS && count == SLOTS * (length - 1) + used && (length == 1 || used > 0)
    ensures Need(count) == length - 1
    ensures Need(count + 1) == if used == SLOTS then length else length - 1
  {
  }

  lemma {:induction false} DenseNeeds(t: Table, x: Index, hash: Key -> nat, n: nat)
    requires t.regular >= 1 && forall r: nat :: r < n ==> Tight(t, x, hash, r) && Snug(t, x, r)
    ensures Needed(x.locs.Keys, hash, t.regular, n) == InChains(x, n)
  {
    if n == 0 {
    } else {
      DenseNeeds(t, x, hash, n - 1);
      assert Tight(t, x, hash, n - 1);
      ChainNeeds(|KeysAt(x.locs.Keys, hash, t.regular, n - 1)|, Length(x, n - 1), UsedLast(t, x, n - 1));
    }
  }

  /** A new key finds room exactly when its chain's last bucket has an empty slot or there is a free bucket. */
  lemma RoomIff(t: Table, x: Index, hash: Key -> nat, extra: nat, key: Key)
    requires Dense(t, x, hash, extra) && key !in x.locs
    ensures Fits(x.locs.Keys + {key}, hash, t.regular, extra)
            <==> t.free != [] || UsedLast(t, x, hash(key) % t.regular) < SLOTS
  {
    var r := hash(key) % t.regular;
    assert Tight(t, x, hash, r);
    DenseNeeds(t, x, hash, t.regular);
    NeededAdds(x.locs.Keys, hash, t.regular, key, t.regular);
    ChainNeeds(|KeysAt(x.locs.Keys, hash, t.regular, r)|, Length(x, r), UsedLast(t, x, r));
  }

  // ----- The changes keep chains without gaps -----

  lemma {:induction false} InChainsFrom(x: Index, y: Index, n: nat, r: nat, d: int)
    requires forall s: nat :: s < n ==> Length(y, s) == Length(x, s) + if s == r then d else 0
    ensures InChains(y, n) == InChains(x, n) + if r < n then d else 0
  {
    if n == 0 {
    } else {
      InChainsFrom(x, y, n - 1, r, d);
    }
  }

  /** Writing to a slot of place `j` in chain `r` changes the count of that bucket only. */
  lemma SetSlotUsed(t: Table, x: Index, hash: Key -> nat, r: nat, j: nat, i: nat, slot: Slot, s: nat, k: nat)
    requires Ok(t, x, hash) && r < t.regular && s < t.regular && j < |x.chains[r]| && k < |x.chains[s]|
    requires i < SLOTS && slot.key != INVALID
    ensures x.chains[r][j] < |t.buckets|
    ensures var p := x.chains[r][j];
            Used(SlotsAt(SetSlot(t, p, i, slot), x, s, k))
            == Used(SlotsAt(t, x, s, k)) + if s == r && k == j && t.buckets[p].slots[i].key == INVALID then 1 else 0
  {
    assert ChainOk(t, x, r) && ChainOk(t, x, s);
    assert LinkOk(t, x, r, j) && LinkOk(t, x, s, k);
    ChainsDisjoint(t, x, hash, r, j, s, k);
    UsedUpdate(t.buckets[x.chains[r][j]].slots, i, slot);
  }

  /** Rewriting an occupied slot. */
  lemma OverwriteDense(t: Table, x: Index, hash: Key -> nat, extra: nat, r: nat, j: nat, i: nat, slot: Slot)
    requires Ok(t, x, hash) && Dense(t, x, hash, extra) && r < t.regular && j < |x.chains[r]| && i < SLOTS
    requires x.chains[r][j] < |t.buckets| && slot.key != INVALID
    requires t.buckets[x.chains[r][j]].slots[i].key != INVALID
    ensures Dense(SetSlot(t, x.chains[r][j], i, slot), x, hash, extra)
  {
    var t' := SetSlot(t, x.chains[r][j], i, slot);
    forall s: nat | s < t.regular ensures Tight(t', x, hash, s) && Snug(t', x, s) {
      assert Tight(t, x, hash, s) && Snug(t, x, s);
      forall k | 0 <= k < Length(x, s) ensures Used(SlotsAt(t', x, s, k)) == Used(SlotsAt(t, x, s, k)) {
        SetSlotUsed(t, x, hash, r, j, i, slot, s, k);
      }
    }
  }

  /** All is well but for chain `r`, whose last bucket may be empty. */
  ghost predicate NearlyDense(t: Table, x: Index, hash: Key -> nat, extra: nat, r: nat) {
    && t.regular >= 1
    && (forall s: nat :: s < t.regular ==> Tight(t, x, hash, s) && (s != r ==> Snug(t, x, s)))
    && |t.free| + InChains(x, t.regular) == extra
  }

  /** An empty slot of a tight chain is in its last bucket. */
  lemma EmptySlotLast(t: Table, x: Index, hash: Key -> nat, r: nat, j: nat, i: nat)
    requires Ok(t, x, hash) && r < t.regular && Tight(t, x, hash, r) && j < |x.chains[r]| && i < SLOTS
    requires x.chains[r][j] < |t.buckets| && t.buckets[x.chains[r][j]].slots[i].key == INVALID
    ensures j == |x.chains[r]| - 1 && UsedLast(t, x, r) < SLOTS
  {
    UsedAll(t.buckets[x.chains[r][j]].slots);
    assert SlotsAt(t, x, r, j) == t.buckets[x.chains[r][j]].slots;
  }

  /** The bucket at place `k` of chain `s` has `d` more occupied slots if it is the `n`-th, and else as many. */
  ghost predicate MoreUsed(t: Table, x: Index, t': Table, x': Index, s: nat, k: nat, n: nat, d: nat) {
    Used(SlotsAt(t', x', s, k)) == Used(SlotsAt(t, x, s, k)) + if k + 1 == n then d else 0
  }

  lemma TightStep(t: Table, x: Index, t': Table, x': Index, hash: Key -> nat, s: nat, d: nat)
    requires t'.regular == t.regular >= 1 && Tight(t, x, hash, s) && Length(x', s) == Length(x, s)
    requires forall k: nat :: k < Length(x, s) ==> MoreUsed(t, x, t', x', s, k, Length(x, s), d)
    requires UsedLast(t, x, s) + d <= SLOTS
    requires |KeysAt(x'.locs.Keys, hash, t.regular, s)| == |KeysAt(x.locs.Keys, hash, t.regular, s)| + d
    ensures Tight(t', x', hash, s) && UsedLast(t', x', s) == UsedLast(t, x, s) + d
  {
    assert MoreUsed(t, x, t', x', s, Length(x, s) - 1, Length(x, s), d);
    forall j | 0 <= j < Length(x, s) - 1 ensures Used(SlotsAt(t', x', s, j)) == SLOTS {
      assert MoreUsed(t, x, t', x', s, j, Length(x, s), d);
    }
  }

  lemma FillUsed(t: Table, x: Index, hash: Key -> nat, p: nat, i: nat, slot: Slot, locs: map<Key, Loc>, s: nat, k: nat)
    requires Ok(t, x, hash) && slot.key != INVALID && p < |t.buckets| && i < SLOTS
    requires t.buckets[p].slots[i].key == INVALID && x.places[p].InChain?
    requires s < t.regular && k < Length(x, s)
    ensures MoreUsed(t, x, SetSlot(t, p, i, slot), x.(locs := locs), s, k, x.places[p].at + 1,
                     if x.places[p].chain == s then 1 else 0)
  {
    assert PlaceOk(t, x, p);
    SetSlotUsed(t, x, hash, x.places[p].chain, x.places[p].at, i, slot, s, k);
    assert SlotsAt(SetSlot(t, p, i, slot), x.(locs := locs), s, k) == SlotsAt(SetSlot(t, p, i, slot), x, s, k);
  }

  lemma FillTight(t: Table, x: Index, hash: Key -> nat, p: nat, i: nat, key: Key, value: Value, s: nat)
    requires Ok(t, x, hash) && key !in x.locs && key != INVALID && p < |t.buckets| && i < SLOTS
    requires t.buckets[p].slots[i].key == INVALID
    requires x.places[p].InChain? && x.places[p].chain == hash(key) % t.regular
    requires x.places[p].at == Length(x, hash(key) % t.regular) - 1 && UsedLast(t, x, hash(key) % t.regular) < SLOTS
    requires s < t.regular && Tight(t, x, hash, s)
    ensures var r, t', x' := hash(key) % t.regular, SetSlot(t, p, i, Slot(key, value)),
                             x.(locs := x.locs[key := Loc(p, i)]);
            Tight(t', x', hash, s) && UsedLast(t', x', s) == UsedLast(t, x, s) + if s == r then 1 else 0
  {
    var t', x' := SetSlot(t, p, i, Slot(key, value)), x.(locs := x.locs[key := Loc(p, i)]);
    var d: nat := if s == hash(key) % t.regular then 1 else 0;
    forall k: nat | k < Length(x, s) ensures MoreUsed(t, x, t', x', s, k, Length(x, s), d) {
      FillUsed(t, x, hash, p, i, Slot(key, value), x'.locs, s, k);
    }
    assert x'.locs.Keys == x.locs.Keys + {key};
    KeysAtAdds(x.locs.Keys, hash, t.regular, s, key);
    TightStep(t, x, t', x', hash, s, d);
  }

  /** Filling an empty slot of the right chain. */
  lemma FillDense(t: Table, x: Index, hash: Key -> nat, extra: nat, p: nat, i: nat, key: Key, value: Value)
    requires Ok(t, x, hash) && key !in x.locs && key != INVALID && p < |t.buckets| && i < SLOTS
    requires t.buckets[p].slots[i].key == INVALID
    requires x.places[p].InChain? && x.places[p].chain == hash(key) % t.regular
    requires NearlyDense(t, x, hash, extra, hash(key) % t.regular)
    ensures Dense(SetSlot(t, p, i, Slot(key, value)), x.(locs := x.locs[key := Loc(p, i)]), hash, extra)
  {
    var r := hash(key) % t.regular;
    var t', x' := SetSlot(t, p, i, Slot(key, value)), x.(locs := x.locs[key := Loc(p, i)]);
    assert PlaceOk(t, x, p) && Tight(t, x, hash, r);
    EmptySlotLast(t, x, hash, r, x.places[p].at, i);
    forall s: nat | s < t.regular ensures Tight(t', x', hash, s) && Snug(t', x', s) {
      assert Tight(t, x, hash, s);
      FillTight(t, x, hash, p, i, key, value, s);
    }
    InChainsFrom(x, x', t.regular, r, 0);
  }

  lemma ExtendSlotsAt(t: Table, x: Index, r: nat, s: nat, k: nat)
    requires Extensible(t, x, r) && s < t.regular && k < Length(x, s)
    ensures SlotsAt(Extend(t, EndOf(x, r)), ExtendIndex(t, x, r), s, k) == SlotsAt(t, x, s, k)
  {
  }

  lemma ExtendLast(t: Table, x: Index, r: nat)
    requires Extensible(t, x, r)
    ensures Length(ExtendIndex(t, x, r), r) == Length(x, r) + 1
    ensures UsedLast(Extend(t, EndOf(x, r)), ExtendIndex(t, x, r), r) == 0
  {
    var added := Position(t.regular, t.free[|t.free| - 1]);
    UsedAll(t.buckets[added].slots);
    assert SlotsAt(Extend(t, EndOf(x, r)), ExtendIndex(t, x, r), r, Length(x, r)) == t.buckets[added].slots;
  }

  lemma ExtendTight(t: Table, x: Index, hash: Key -> nat, r: nat, s: nat)
    requires Extensible(t, x, r) && s < t.regular && Tight(t, x, hash, s) && UsedLast(t, x, r) == SLOTS
    ensures var t', x' := Extend(t, EndOf(x, r)), ExtendIndex(t, x, r);
            && Tight(t', x', hash, s) && Length(x', s) == Length(x, s) + (if s == r then 1 else 0)
            && (s != r ==> UsedLast(t', x', s) == UsedLast(t, x, s))
  {
    var t', x' := Extend(t, EndOf(x, r)), ExtendIndex(t, x, r);
    ExtendLast(t, x, r);
    forall k | 0 <= k < Length(x, s) ensures SlotsAt(t', x', s, k) == SlotsAt(t, x, s, k) {
      ExtendSlotsAt(t, x, r, s, k);
    }
  }

  /** Hanging a free bucket off a full chain. */
  lemma ExtendDense(t: Table, x: Index, hash: Key -> nat, extra: nat, r: nat)
    requires Ok(t, x, hash) && Extensible(t, x, r) && Dense(t, x, hash, extra) && UsedLast(t, x, r) == SLOTS
    ensures NearlyDense(Extend(t, EndOf(x, r)), ExtendIndex(t, x, r), hash, extra, r)
  {
    var t', x' := Extend(t, EndOf(x, r)), ExtendIndex(t, x, r);
    forall s: nat | s < t.regular
      ensures Tight(t', x', hash, s) && (s != r ==> Snug(t', x', s))
      ensures Length(x', s) == Length(x, s) + if s == r then 1 else 0
    {
      assert Tight(t, x, hash, s) && Snug(t, x, s);
      ExtendTight(t, x, hash, r, s);
    }
    InChainsFrom(x, x', t.regular, r, 1);
  }
}
