/** The persistent hash table as a value: chained buckets, the free list, and the invariant that makes it a map. */
module PmicaTable {
  const SLOTS: nat := 5

  type Key = nat
  type Value = int

  /** The all-zero key marks an empty slot. */
  const INVALID: Key := 0

  datatype Slot = Slot(key: Key, value: Value)

  /** `next` is the number of an extra bucket; those are numbered from one, and zero ends the chain. */
  datatype Bucket = Bucket(next: nat, slots: seq<Slot>)

  /** Regular buckets come first, extra buckets after them; `free` holds the numbers of the unused extra ones. */
  datatype Table = Table(regular: nat, buckets: seq<Bucket>, free: seq<nat>)

  /** Where extra bucket `number` lives. Number zero would be the last regular bucket, and is never used. */
  function Position(regular: nat, number: nat): (p: nat)
    requires regular >= 1
    ensures number >= 1 ==> p >= regular
  {
    regular - 1 + number
  }

  // ----- Invariant -----

  datatype Place = InChain(chain: nat, at: nat) | OnFreeList(at: nat)

  datatype Loc = Loc(bucket: nat, slot: nat)

  /** Proof witness: every chain as a list of buckets, the one place of every bucket, the one slot of every key. */
  datatype Index = Index(chains: seq<seq<nat>>, places: seq<Place>, locs: map<Key, Loc>)

  ghost predicate Shape(t: Table, x: Index) {
    && t.regular >= 1 && |t.buckets| >= t.regular
    && |x.chains| == t.regular && |x.places| == |t.buckets|
    && forall p :: 0 <= p < |t.buckets| ==> |t.buckets[p].slots| == SLOTS
  }

  ghost predicate LinkOk(t: Table, x: Index, r: nat, j: nat)
    requires Shape(t, x) && r < t.regular && j < |x.chains[r]|
  {
    var p := x.chains[r][j];
    && p < |t.buckets|
    && x.places[p] == InChain(r, j)
    && (j > 0 ==> p >= t.regular)
    && if j + 1 < |x.chains[r]|
       then t.buckets[p].next >= 1 && Position(t.regular, t.buckets[p].next) == x.chains[r][j + 1]
       else t.buckets[p].next == 0
  }

  ghost predicate ChainOk(t: Table, x: Index, r: nat)
    requires Shape(t, x) && r < t.regular
  {
    && |x.chains[r]| >= 1 && x.chains[r][0] == r
    && forall j :: 0 <= j < |x.chains[r]| ==> LinkOk(t, x, r, j)
  }

  predicate Empty(b: Bucket) {
    b.next == 0 && forall i :: 0 <= i < |b.slots| ==> b.slots[i].key == INVALID
  }

  ghost predicate PlaceOk(t: Table, x: Index, p: nat)
    requires Shape(t, x) && p < |t.buckets|
  {
    match x.places[p]
    case InChain(r, j) => r < t.regular && j < |x.chains[r]| && x.chains[r][j] == p
    case OnFreeList(k) => k < |t.free| && Position(t.regular, t.free[k]) == p && Empty(t.buckets[p])
  }

  ghost predicate FreeOk(t: Table, x: Index, k: nat)
    requires Shape(t, x) && k < |t.free|
  {
    && t.free[k] >= 1
    && Position(t.regular, t.free[k]) < |t.buckets|
    && x.places[Position(t.regular, t.free[k])] == OnFreeList(k)
  }

  /** An occupied slot is in the chain of its key's hash, and is that key's only slot. */
  ghost predicate SlotOk(t: Table, x: Index, hash: Key -> nat, p: nat, i: nat)
    requires Shape(t, x) && p < |t.buckets| && i < SLOTS
  {
    var key := t.buckets[p].slots[i].key;
    key != INVALID ==>
      && x.places[p].InChain? && x.places[p].chain == hash(key) % t.regular
      && key in x.locs && x.locs[key] == Loc(p, i)
  }

  ghost predicate LocOk(t: Table, x: Index, key: Key)
    requires Shape(t, x) && key in x.locs
  {
    && key != INVALID
    && x.locs[key].bucket < |t.buckets| && x.locs[key].slot < SLOTS
    && t.buckets[x.locs[key].bucket].slots[x.locs[key].slot].key == key
  }

  ghost predicate Ok(t: Table, x: Index, hash: Key -> nat) {
    && Shape(t, x)
    && (forall r :: 0 <= r < t.regular ==> ChainOk(t, x, r))
    && (forall p :: 0 <= p < |t.buckets| ==> PlaceOk(t, x, p))
    && (forall k :: 0 <= k < |t.free| ==> FreeOk(t, x, k))
    && (forall p, i :: 0 <= p < |t.buckets| && 0 <= i < SLOTS ==> SlotOk(t, x, hash, p, i))
    && (forall key :: key in x.locs ==> LocOk(t, x, key))
  }

  ghost function ValueOf(t: Table, x: Index, key: Key): Value
    requires Shape(t, x) && key in x.locs && LocOk(t, x, key)
  {
    t.buckets[x.locs[key].bucket].slots[x.locs[key].slot].value
  }

  /** The map the table stands for. */
  ghost function Contents(t: Table, x: Index): map<Key, Value>
    requires Shape(t, x) && forall key :: key in x.locs ==> LocOk(t, x, key)
  {
    map key | key in x.locs :: ValueOf(t, x, key)
  }

  /** A bucket is in one chain, once: chains are acyclic and disjoint, and no extra bucket is a regular one. */
  lemma ChainsDisjoint(t: Table, x: Index, hash: Key -> nat, r: nat, j: nat, s: nat, k: nat)
    requires Ok(t, x, hash) && r < t.regular && s < t.regular && j < |x.chains[r]| && k < |x.chains[s]|
    ensures x.chains[r][j] == x.chains[s][k] ==> r == s && j == k
    ensures j > 0 ==> x.chains[r][j] >= t.regular
  {
    assert ChainOk(t, x, r) && ChainOk(t, x, s);
    assert LinkOk(t, x, r, j) && LinkOk(t, x, s, k);
  }

  /** The free list repeats nothing and holds only empty buckets that no chain uses. */
  lemma FreeListApart(t: Table, x: Index, hash: Key -> nat, k: nat, l: nat, r: nat, j: nat)
    requires Ok(t, x, hash) && k < |t.free| && l < |t.free| && r < t.regular && j < |x.chains[r]|
    ensures t.free[k] >= 1 && t.regular <= Position(t.regular, t.free[k]) < |t.buckets|
    ensures Empty(t.buckets[Position(t.regular, t.free[k])])
    ensures x.chains[r][j] != Position(t.regular, t.free[k])
    ensures t.free[k] == t.free[l] ==> k == l
  {
    assert FreeOk(t, x, k) && FreeOk(t, x, l);
    assert PlaceOk(t, x, Position(t.regular, t.free[k]));
    assert ChainOk(t, x, r);
    assert LinkOk(t, x, r, j);
  }

  /** A key has at most one slot, and the map knows exactly the keys that have one. */
  lemma KeyOnce(t: Table, x: Index, hash: Key -> nat, p: nat, i: nat, q: nat, h: nat)
    requires Ok(t, x, hash) && p < |t.buckets| && q < |t.buckets| && i < SLOTS && h < SLOTS
    requires t.buckets[p].slots[i].key != INVALID
    ensures t.buckets[p].slots[i].key == t.buckets[q].slots[h].key ==> p == q && i == h
    ensures t.buckets[p].slots[i].key in Contents(t, x)
    ensures Contents(t, x)[t.buckets[p].slots[i].key] == t.buckets[p].slots[i].value
  {
    assert SlotOk(t, x, hash, p, i) && SlotOk(t, x, hash, q, h);
  }

  // ----- The three changes -----

  function SetSlot(t: Table, p: nat, i: nat, slot: Slot): Table
    requires p < |t.buckets| && i < |t.buckets[p].slots|
  {
    t.(buckets := t.buckets[p := t.buckets[p].(slots := t.buckets[p].slots[i := slot])])
  }

  /** A write to a slot of a chained bucket leaves the chains and the free list alone. */
  lemma SetSlotChains(t: Table, x: Index, x': Index, hash: Key -> nat, p: nat, i: nat, slot: Slot)
    requires Ok(t, x, hash) && p < |t.buckets| && i < SLOTS && x.places[p].InChain?
    requires x'.chains == x.chains && x'.places == x.places
    ensures Shape(SetSlot(t, p, i, slot), x')
    ensures forall r :: 0 <= r < t.regular ==> ChainOk(SetSlot(t, p, i, slot), x', r)
    ensures forall q :: 0 <= q < |t.buckets| ==> PlaceOk(SetSlot(t, p, i, slot), x', q)
    ensures forall k :: 0 <= k < |t.free| ==> FreeOk(SetSlot(t, p, i, slot), x', k)
  {
    var t' := SetSlot(t, p, i, slot);
    forall r | 0 <= r < t.regular ensures ChainOk(t', x', r) {
      assert ChainOk(t, x, r);
      forall j | 0 <= j < |x.chains[r]| ensures LinkOk(t', x', r, j) { assert LinkOk(t, x, r, j); }
    }
    forall q | 0 <= q < |t.buckets| ensures PlaceOk(t', x', q) { assert PlaceOk(t, x, q); }
    forall k | 0 <= k < |t.free| ensures FreeOk(t', x', k) { assert FreeOk(t, x, k); }
  }

  /** Writing a key's own slot changes that key and nothing else. */
  lemma Overwrite(t: Table, x: Index, hash: Key -> nat, key: Key, value: Value)
    requires Ok(t, x, hash) && key in x.locs
    ensures LocOk(t, x, key)
    ensures Ok(SetSlot(t, x.locs[key].bucket, x.locs[key].slot, Slot(key, value)), x, hash)
    ensures Contents(SetSlot(t, x.locs[key].bucket, x.locs[key].slot, Slot(key, value)), x)
            == Contents(t, x)[key := value]
  {
    assert LocOk(t, x, key);
    var p, i := x.locs[key].bucket, x.locs[key].slot;
    var t' := SetSlot(t, p, i, Slot(key, value));
    assert SlotOk(t, x, hash, p, i);
    SetSlotChains(t, x, x, hash, p, i, Slot(key, value));
    forall q, h | 0 <= q < |t.buckets| && 0 <= h < SLOTS ensures SlotOk(t', x, hash, q, h) {
      assert SlotOk(t, x, hash, q, h);
    }
    forall k | k in x.locs ensures LocOk(t', x, k) { assert LocOk(t, x, k); }
  }

  lemma FillSlot(t: Table, x: Index, hash: Key -> nat, p: nat, i: nat, key: Key, value: Value, q: nat, h: nat)
    requires Shape(t, x) && key !in x.locs && key != INVALID
    requires p < |t.buckets| && i < SLOTS && t.buckets[p].slots[i].key == INVALID
    requires x.places[p].InChain? && x.places[p].chain == hash(key) % t.regular
    requires q < |t.buckets| && h < SLOTS && SlotOk(t, x, hash, q, h)
    ensures Shape(SetSlot(t, p, i, Slot(key, value)), x.(locs := x.locs[key := Loc(p, i)]))
    ensures SlotOk(SetSlot(t, p, i, Slot(key, value)), x.(locs := x.locs[key := Loc(p, i)]), hash, q, h)
  {
  }

  lemma FillLoc(t: Table, x: Index, p: nat, i: nat, key: Key, value: Value, k: Key)
    requires Shape(t, x) && key !in x.locs && key != INVALID
    requires p < |t.buckets| && i < SLOTS && t.buckets[p].slots[i].key == INVALID
    requires k in x.locs && LocOk(t, x, k)
    ensures Shape(SetSlot(t, p, i, Slot(key, value)), x.(locs := x.locs[key := Loc(p, i)]))
    ensures LocOk(SetSlot(t, p, i, Slot(key, value)), x.(locs := x.locs[key := Loc(p, i)]), k)
    ensures ValueOf(SetSlot(t, p, i, Slot(key, value)), x.(locs := x.locs[key := Loc(p, i)]), k) == ValueOf(t, x, k)
  {
  }

  /** Filling an empty slot of the right chain adds one key. */
  lemma Fill(t: Table, x: Index, hash: Key -> nat, p: nat, i: nat, key: Key, value: Value)
    requires Ok(t, x, hash) && key !in x.locs && key != INVALID
    requires p < |t.buckets| && i < SLOTS && t.buckets[p].slots[i].key == INVALID
    requires x.places[p].InChain? && x.places[p].chain == hash(key) % t.regular
    ensures Ok(SetSlot(t, p, i, Slot(key, value)), x.(locs := x.locs[key := Loc(p, i)]), hash)
    ensures Contents(SetSlot(t, p, i, Slot(key, value)), x.(locs := x.locs[key := Loc(p, i)]))
            == Contents(t, x)[key := value]
  {
    var t' := SetSlot(t, p, i, Slot(key, value));
    var x' := x.(locs := x.locs[key := Loc(p, i)]);
    SetSlotChains(t, x, x', hash, p, i, Slot(key, value));
    forall q, h | 0 <= q < |t.buckets| && 0 <= h < SLOTS ensures SlotOk(t', x', hash, q, h) {
      FillSlot(t, x, hash, p, i, key, value, q, h);
    }
    forall k | k in x'.locs
      ensures LocOk(t', x', k) && (k != key ==> LocOk(t, x, k) && ValueOf(t', x', k) == ValueOf(t, x, k))
    {
      if k != key { FillLoc(t, x, p, i, key, value, k); }
    }
  }

  ghost function EndOf(x: Index, r: nat): nat
    requires r < |x.chains| && |x.chains[r]| > 0
  {
    x.chains[r][|x.chains[r]| - 1]
  }

  /** Hangs the last bucket of the free list off bucket `end`. */
  function Extend(t: Table, end: nat): Table
    requires |t.free| > 0 && end < |t.buckets|
  {
    var number := t.free[|t.free| - 1];
    t.(buckets := t.buckets[end := t.buckets[end].(next := number)], free := t.free[..|t.free| - 1])
  }

  ghost function ExtendIndex(t: Table, x: Index, r: nat): Index
    requires t.regular >= 1 && |t.free| > 0 && r < |x.chains|
    requires Position(t.regular, t.free[|t.free| - 1]) < |x.places|
  {
    var p := Position(t.regular, t.free[|t.free| - 1]);
    x.(chains := x.chains[r := x.chains[r] + [p]], places := x.places[p := InChain(r, |x.chains[r]|)])
  }

  /** What `Extend` needs to know about the chain's end and the bucket it takes. */
  ghost predicate Extensible(t: Table, x: Index, r: nat) {
    && Shape(t, x) && |t.free| > 0 && r < t.regular && |x.chains[r]| > 0
    && LinkOk(t, x, r, |x.chains[r]| - 1)
    && FreeOk(t, x, |t.free| - 1)
    && Empty(t.buckets[Position(t.regular, t.free[|t.free| - 1])])
  }

  lemma ExtendChain(t: Table, x: Index, r: nat, s: nat)
    requires Extensible(t, x, r) && s < t.regular && ChainOk(t, x, s)
    ensures Shape(Extend(t, EndOf(x, r)), ExtendIndex(t, x, r))
    ensures ChainOk(Extend(t, EndOf(x, r)), ExtendIndex(t, x, r), s)
  {
    var t', x' := Extend(t, EndOf(x, r)), ExtendIndex(t, x, r);
    forall j | 0 <= j < |x'.chains[s]| ensures LinkOk(t', x', s, j) {
      if j < |x.chains[s]| { assert LinkOk(t, x, s, j); }
    }
  }

  lemma ExtendPlaces(t: Table, x: Index, r: nat)
    requires Extensible(t, x, r)
    requires forall p :: 0 <= p < |t.buckets| ==> PlaceOk(t, x, p)
    requires forall k :: 0 <= k < |t.free| ==> FreeOk(t, x, k)
    ensures Shape(Extend(t, EndOf(x, r)), ExtendIndex(t, x, r))
    ensures forall p :: 0 <= p < |t.buckets| ==> PlaceOk(Extend(t, EndOf(x, r)), ExtendIndex(t, x, r), p)
    ensures forall k :: 0 <= k < |t.free| - 1 ==> FreeOk(Extend(t, EndOf(x, r)), ExtendIndex(t, x, r), k)
  {
    var t', x' := Extend(t, EndOf(x, r)), ExtendIndex(t, x, r);
    forall p | 0 <= p < |t.buckets| ensures PlaceOk(t', x', p) { assert PlaceOk(t, x, p); }
    forall k | 0 <= k < |t.free| - 1 ensures FreeOk(t', x', k) { assert FreeOk(t, x, k); }
  }

  lemma ExtendSlots(t: Table, x: Index, hash: Key -> nat, r: nat)
    requires Extensible(t, x, r)
    requires forall p, i :: 0 <= p < |t.buckets| && 0 <= i < SLOTS ==> SlotOk(t, x, hash, p, i)
    requires forall key :: key in x.locs ==> LocOk(t, x, key)
    ensures Shape(Extend(t, EndOf(x, r)), ExtendIndex(t, x, r))
    ensures forall p, i :: 0 <= p < |t.buckets| && 0 <= i < SLOTS ==>
              SlotOk(Extend(t, EndOf(x, r)), ExtendIndex(t, x, r), hash, p, i)
    ensures forall key :: key in x.locs ==> LocOk(Extend(t, EndOf(x, r)), ExtendIndex(t, x, r), key)
    ensures Contents(Extend(t, EndOf(x, r)), ExtendIndex(t, x, r)) == Contents(t, x)
  {
    var t', x' := Extend(t, EndOf(x, r)), ExtendIndex(t, x, r);
    forall p, i | 0 <= p < |t.buckets| && 0 <= i < SLOTS ensures SlotOk(t', x', hash, p, i) {
      assert SlotOk(t, x, hash, p, i);
    }
    forall key | key in x.locs ensures LocOk(t', x', key) { assert LocOk(t, x, key); }
  }

  /** A longer chain is still a chain, apart from the others, and the map is untouched. */
  lemma ExtendOk(t: Table, x: Index, hash: Key -> nat, r: nat)
    requires Ok(t, x, hash) && |t.free| > 0 && r < t.regular
    ensures Extensible(t, x, r)
    ensures Ok(Extend(t, EndOf(x, r)), ExtendIndex(t, x, r), hash)
    ensures Contents(Extend(t, EndOf(x, r)), ExtendIndex(t, x, r)) == Contents(t, x)
  {
    assert ChainOk(t, x, r) && FreeOk(t, x, |t.free| - 1);
    assert PlaceOk(t, x, Position(t.regular, t.free[|t.free| - 1]));
    assert Extensible(t, x, r);
    forall s | 0 <= s < t.regular
      ensures ChainOk(Extend(t, EndOf(x, r)), ExtendIndex(t, x, r), s)
    {
      ExtendChain(t, x, r, s);
    }
    ExtendPlaces(t, x, r);
    ExtendSlots(t, x, hash, r);
  }
}
