/**
 The in-memory hash table as a value: an index of eight-slot buckets over a log of fixed-size records. All of it
 is about the first lap of the log, before the head wraps.
 */
module MicaLog {
  type byte = x: int | 0 <= x < 256

  const SLOTS: nat := 8
  const VALUE_SIZE: nat := 32

  /** The head wraps once no more than this is left of the log. */
  const MARGIN: nat := 78

  /** Sixteen bytes of key, an opcode, a length and the value field, then padding to a multiple of eight. */
  const RECORD: nat := 50
  const STRIDE: nat := 56

  const GET: byte := 111
  const PUT: byte := 112

  datatype Option<T> = None | Some(value: T)

  /** `key` is the second half of the sixteen-byte key: bucket, server and tag. Lookups ignore the first half. */
  datatype Request = Request(meta: seq<byte>, key: seq<byte>, opcode: byte, len: byte, value: seq<byte>)

  /** A get or a put whose value, if any, fits the value field. */
  type Op = r: Request |
    && |r.meta| == 8 && |r.key| == 8 && |r.value| == VALUE_SIZE && r.len <= VALUE_SIZE
    && (r.opcode == GET || r.opcode == PUT)
    witness Request(seq(8, _ => 0), seq(8, _ => 0), GET, 0, seq(VALUE_SIZE, _ => 0))

  function Bytes(op: Op): (r: seq<byte>)
    ensures |r| == RECORD && r[8..16] == op.key && r[17] == op.len && r[18..18 + op.len] == Given(op)
  {
    op.meta + op.key + [op.opcode, op.len] + op.value
  }

  function Given(op: Op): seq<byte>
  {
    op.value[..op.len]
  }

  function BucketOf(key: seq<byte>, buckets: nat): (b: nat)
    requires |key| == 8 && buckets > 0
    ensures b < buckets
  {
    (key[0] as int + 0x100 * key[1] as int + 0x1_0000 * key[2] as int + 0x100_0000 * key[3] as int) % buckets
  }

  function TagOf(key: seq<byte>): nat
    requires |key| == 8
  {
    key[6] as int + 0x100 * key[7] as int
  }

  datatype Slot = Slot(inUse: bool, tag: nat, offset: nat)

  datatype Store = Store(index: seq<seq<Slot>>, log: seq<byte>, head: nat)

  // ----- Records -----

  ghost predicate InLog(log: seq<byte>, o: nat) {
    o + STRIDE <= |log|
  }

  function KeyAt(log: seq<byte>, o: nat): (key: seq<byte>)
    requires InLog(log, o)
    ensures |key| == 8
  {
    log[o + 8..o + 16]
  }

  function LenAt(log: seq<byte>, o: nat): byte
    requires InLog(log, o)
  {
    log[o + 17]
  }

  function ValueAt(log: seq<byte>, o: nat): seq<byte>
    requires InLog(log, o) && LenAt(log, o) <= VALUE_SIZE
  {
    log[o + 18..o + 18 + LenAt(log, o)]
  }

  function Pasted(log: seq<byte>, o: nat, bytes: seq<byte>): (r: seq<byte>)
    requires o + |bytes| <= |log|
    ensures |r| == |log|
  {
    log[..o] + bytes + log[o + |bytes|..]
  }

  // ----- Slots -----

  function FirstTag(slots: seq<Slot>, tag: nat, i: nat): (j: nat)
    requires i <= |slots|
    ensures i <= j <= |slots|
    ensures j < |slots| ==> slots[j].inUse && slots[j].tag == tag
    ensures forall h :: i <= h < j ==> !(slots[h].inUse && slots[h].tag == tag)
    decreases |slots| - i
  {
    if i == |slots| || (slots[i].inUse && slots[i].tag == tag) then i else FirstTag(slots, tag, i + 1)
  }

  predicate Takes(slot: Slot, tag: nat) {
    slot.tag == tag || !slot.inUse
  }

  /** The last slot, among the first `n`, that is unused or has this tag; -1 for none. */
  function LastTaking(slots: seq<Slot>, tag: nat, n: nat): (j: int)
    requires n <= |slots|
    ensures -1 <= j < n
    ensures j >= 0 ==> Takes(slots[j], tag)
    ensures forall h :: j < h < n ==> !Takes(slots[h], tag)
  {
    if n == 0 then -1 else if Takes(slots[n - 1], tag) then n - 1 else LastTaking(slots, tag, n - 1)
  }

  function SlotFor(slots: seq<Slot>, tag: nat): (j: nat)
    requires |slots| == SLOTS
    ensures j < SLOTS
  {
    var j := LastTaking(slots, tag, SLOTS);
    if j == -1 then tag % SLOTS else j
  }

  /** The offset a tag match leads to, whatever key is there. */
  function Candidate(s: Store, key: seq<byte>): Option<nat>
    requires |s.index| > 0 && |key| == 8
  {
    var slots := s.index[BucketOf(key, |s.index|)];
    var j := FirstTag(slots, TagOf(key), 0);
    if j < |slots| then Some(slots[j].offset) else None
  }

  // ----- Invariant -----

  type Values = map<seq<byte>, seq<byte>>

  /** In-use slots form a suffix of the bucket and have distinct tags. */
  ghost predicate BucketOk(slots: seq<Slot>) {
    && |slots| == SLOTS
    && forall i, j :: 0 <= i < j < SLOTS && slots[i].inUse ==> slots[j].inUse && slots[i].tag != slots[j].tag
  }

  /** A complete record at `o`, holding the value last put for its key. */
  ghost predicate RecordOk(s: Store, latest: Values, o: nat) {
    && o % STRIDE == 0 && o + STRIDE <= s.head <= |s.log|
    && KeyAt(s.log, o) in latest
    && LenAt(s.log, o) <= VALUE_SIZE
    && ValueAt(s.log, o) == latest[KeyAt(s.log, o)]
  }

  ghost predicate SlotOk(s: Store, latest: Values, b: nat, j: nat)
    requires b < |s.index| && j < |s.index[b]|
  {
    var slot := s.index[b][j];
    slot.inUse ==>
      && RecordOk(s, latest, slot.offset)
      && BucketOf(KeyAt(s.log, slot.offset), |s.index|) == b
      && TagOf(KeyAt(s.log, slot.offset)) == slot.tag
  }

  ghost predicate Ok(s: Store, latest: Values) {
    && |s.index| > 0 && s.head % STRIDE == 0 && s.head <= |s.log|
    && (forall b :: 0 <= b < |s.index| ==> BucketOk(s.index[b]))
    && (forall b, j :: 0 <= b < |s.index| && 0 <= j < SLOTS ==> SlotOk(s, latest, b, j))
  }

  /** What a lookup that goes on to compare keys finds. */
  ghost function Find(s: Store, key: seq<byte>): (r: Option<nat>)
    requires |s.index| > 0 && |key| == 8
  {
    var c := Candidate(s, key);
    if c.Some? && InLog(s.log, c.value) && KeyAt(s.log, c.value) == key then c else None
  }

  /** The record at `o` is the one record for `key`: it is current, and no slot leads to another one. */
  ghost predicate Pinned(s: Store, latest: Values, key: seq<byte>, o: nat)
    requires |s.index| > 0 && |key| == 8
  {
    && RecordOk(s, latest, o) && KeyAt(s.log, o) == key
    && var slots := s.index[BucketOf(key, |s.index|)];
       forall j :: 0 <= j < |slots| && slots[j].inUse && slots[j].tag == TagOf(key)
                   && InLog(s.log, slots[j].offset) && KeyAt(s.log, slots[j].offset) == key
                   ==> slots[j].offset == o
  }

  // ----- Lookup -----

  lemma OnlySlot(slots: seq<Slot>, tag: nat, j: nat)
    requires BucketOk(slots) && j < SLOTS && slots[j].inUse && slots[j].tag == tag
    ensures FirstTag(slots, tag, 0) == j
  {
    assert FirstTag(slots, tag, 0) <= j;
  }

  lemma FindPins(s: Store, latest: Values, key: seq<byte>)
    requires Ok(s, latest) && |key| == 8 && Find(s, key).Some?
    ensures Pinned(s, latest, key, Find(s, key).value)
  {
    var b := BucketOf(key, |s.index|);
    var slots := s.index[b];
    var j := FirstTag(slots, TagOf(key), 0);
    assert BucketOk(slots) && SlotOk(s, latest, b, j);
  }

  /** Any hit is the value most recently put for exactly that key. */
  lemma FindIsLatest(s: Store, latest: Values, key: seq<byte>)
    requires Ok(s, latest) && |key| == 8 && Find(s, key).Some?
    ensures var o := Find(s, key).value;
            RecordOk(s, latest, o) && key in latest && ValueAt(s.log, o) == latest[key]
  {
    FindPins(s, latest, key);
  }

  // ----- Insert -----

  function Insert(s: Store, op: Op): Store
    requires |s.index| > 0 && s.head + STRIDE <= |s.log|
    requires |s.index[BucketOf(op.key, |s.index|)]| == SLOTS
  {
    var b := BucketOf(op.key, |s.index|);
    var j := SlotFor(s.index[b], TagOf(op.key));
    Store(s.index[b := s.index[b][j := Slot(true, TagOf(op.key), s.head)]],
          Pasted(s.log, s.head, Bytes(op)),
          s.head + STRIDE)
  }

  /** Rounding the end of a record up to a multiple of eight lands on the next stride. */
  lemma AlignedHead(head: nat)
    requires head % STRIDE == 0
    ensures (head + RECORD + 7) / 8 * 8 == head + STRIDE
  {
  }

  /** A tag already in the bucket keeps its slot, and otherwise the in-use suffix grows by one. */
  lemma SlotForKeepsBucket(slots: seq<Slot>, tag: nat, offset: nat)
    requires BucketOk(slots)
    ensures BucketOk(slots[SlotFor(slots, tag) := Slot(true, tag, offset)])
    ensures forall j :: 0 <= j < SLOTS && slots[j].inUse && slots[j].tag == tag ==> j == SlotFor(slots, tag)
  {
  }

  /** Records before the head are untouched by a paste at the head. */
  lemma PasteKeepsRecord(s: Store, latest: Values, op: Op, o: nat)
    requires s.head + STRIDE <= |s.log| && RecordOk(s, latest, o)
    ensures var log := Pasted(s.log, s.head, Bytes(op));
            KeyAt(log, o) == KeyAt(s.log, o) && LenAt(log, o) == LenAt(s.log, o) && ValueAt(log, o) == ValueAt(s.log, o)
  {
    var log := Pasted(s.log, s.head, Bytes(op));
    assert log[..s.head] == s.log[..s.head];
    assert KeyAt(log, o) == log[..s.head][o + 8..o + 16];
    assert LenAt(log, o) == log[..s.head][o + 17];
    assert ValueAt(log, o) == log[..s.head][o + 18..o + 18 + LenAt(log, o)];
  }

  lemma PastedRecord(log: seq<byte>, o: nat, op: Op)
    requires o + STRIDE <= |log|
    ensures var r := Pasted(log, o, Bytes(op));
            KeyAt(r, o) == op.key && LenAt(r, o) == op.len && ValueAt(r, o) == Given(op)
  {
    var r, bytes := Pasted(log, o, Bytes(op)), Bytes(op);
    assert r[o..o + RECORD] == bytes;
    assert KeyAt(r, o) == r[o..o + RECORD][8..16];
    assert LenAt(r, o) == r[o..o + RECORD][17];
    assert ValueAt(r, o) == r[o..o + RECORD][18..18 + op.len];
  }

  lemma InsertSlot(s: Store, latest: Values, op: Op, b: nat, j: nat)
    requires Ok(s, latest) && s.head + STRIDE <= |s.log| && b < |s.index| && j < SLOTS
    requires BucketOk(s.index[BucketOf(op.key, |s.index|)]) && BucketOk(s.index[b]) && SlotOk(s, latest, b, j)
    ensures |Insert(s, op).index[b]| == SLOTS
    ensures SlotOk(Insert(s, op), latest[op.key := Given(op)], b, j)
  {
    var home := BucketOf(op.key, |s.index|);
    SlotForKeepsBucket(s.index[home], TagOf(op.key), s.head);
    PastedRecord(s.log, s.head, op);
    var slot := s.index[b][j];
    if slot.inUse { PasteKeepsRecord(s, latest, op, slot.offset); }
  }

  lemma InsertOk(s: Store, latest: Values, op: Op)
    requires Ok(s, latest) && s.head + STRIDE <= |s.log|
    ensures BucketOk(s.index[BucketOf(op.key, |s.index|)])
    ensures Ok(Insert(s, op), latest[op.key := Given(op)])
    ensures Find(Insert(s, op), op.key) == Some(s.head)
  {
    var home := BucketOf(op.key, |s.index|);
    assert BucketOk(s.index[home]);
    SlotForKeepsBucket(s.index[home], TagOf(op.key), s.head);
    PastedRecord(s.log, s.head, op);
    var t, latest' := Insert(s, op), latest[op.key := Given(op)];
    OnlySlot(t.index[home], TagOf(op.key), SlotFor(s.index[home], TagOf(op.key)));
    forall b, j | 0 <= b < |t.index| && 0 <= j < SLOTS ensures |t.index[b]| == SLOTS && SlotOk(t, latest', b, j) {
      assert BucketOk(s.index[b]) && SlotOk(s, latest, b, j);
      InsertSlot(s, latest, op, b, j);
    }
  }

  lemma InsertKeepsPins(s: Store, latest: Values, op: Op, key: seq<byte>, o: nat)
    requires Ok(s, latest) && s.head + STRIDE <= |s.log| && |key| == 8 && key != op.key
    requires Pinned(s, latest, key, o) && BucketOk(s.index[BucketOf(op.key, |s.index|)])
    ensures Pinned(Insert(s, op), latest[op.key := Given(op)], key, o)
  {
    PasteKeepsRecord(s, latest, op, o);
    PastedRecord(s.log, s.head, op);
    var t, b := Insert(s, op), BucketOf(key, |s.index|);
    forall j | 0 <= j < |t.index[b]| && t.index[b][j].inUse && t.index[b][j].tag == TagOf(key)
               && InLog(t.log, t.index[b][j].offset) && KeyAt(t.log, t.index[b][j].offset) == key
      ensures t.index[b][j].offset == o
    {
      assert BucketOk(s.index[b]) && SlotOk(s, latest, b, j);
      if t.index[b][j] == s.index[b][j] { PasteKeepsRecord(s, latest, op, s.index[b][j].offset); }
    }
  }

  // ----- Update in place -----

  function Update(s: Store, op: Op, o: nat): Store
    requires InLog(s.log, o)
  {
    s.(log := Pasted(s.log, o + 18, Given(op)))
  }

  lemma UpdatedRecord(s: Store, op: Op, o: nat)
    requires InLog(s.log, o) && op.len == LenAt(s.log, o)
    ensures var log := Update(s, op, o).log;
            KeyAt(log, o) == KeyAt(s.log, o) && LenAt(log, o) == op.len && ValueAt(log, o) == Given(op)
  {
  }

  /** Records start a stride apart, so an update stays inside its own. */
  lemma UpdateKeepsRecord(s: Store, latest: Values, op: Op, o: nat, o': nat)
    requires InLog(s.log, o) && o % STRIDE == 0 && o' != o && RecordOk(s, latest, o')
    ensures var log := Update(s, op, o).log;
            && KeyAt(log, o') == KeyAt(s.log, o') && LenAt(log, o') == LenAt(s.log, o')
            && ValueAt(log, o') == ValueAt(s.log, o')
  {
    assert o' + STRIDE <= o || o + STRIDE <= o';
  }

  lemma UpdateRecord(s: Store, latest: Values, op: Op, o: nat, o': nat)
    requires RecordOk(s, latest, o) && KeyAt(s.log, o) == op.key && op.len == LenAt(s.log, o)
    requires RecordOk(s, latest, o') && (KeyAt(s.log, o') == op.key ==> o' == o)
    ensures RecordOk(Update(s, op, o), latest[op.key := Given(op)], o')
    ensures KeyAt(Update(s, op, o).log, o') == KeyAt(s.log, o')
  {
    UpdatedRecord(s, op, o);
    if o' != o { UpdateKeepsRecord(s, latest, op, o, o'); }
  }

  lemma UpdateOk(s: Store, latest: Values, op: Op, o: nat)
    requires Ok(s, latest) && Pinned(s, latest, op.key, o) && op.len == LenAt(s.log, o)
    ensures Ok(Update(s, op, o), latest[op.key := Given(op)])
  {
    var t, latest' := Update(s, op, o), latest[op.key := Given(op)];
    forall b, j | 0 <= b < |s.index| && 0 <= j < SLOTS ensures |t.index[b]| == SLOTS && SlotOk(t, latest', b, j) {
      assert BucketOk(s.index[b]) && SlotOk(s, latest, b, j);
      if s.index[b][j].inUse { UpdateRecord(s, latest, op, o, s.index[b][j].offset); }
    }
    forall b | 0 <= b < |t.index| ensures BucketOk(t.index[b]) { assert BucketOk(s.index[b]); }
  }

  lemma UpdateKeepsPins(s: Store, latest: Values, op: Op, o: nat, key: seq<byte>, o': nat)
    requires Ok(s, latest) && Pinned(s, latest, op.key, o) && op.len == LenAt(s.log, o)
    requires |key| == 8 && Pinned(s, latest, key, o') && (key == op.key ==> o' == o)
    ensures Pinned(Update(s, op, o), latest[op.key := Given(op)], key, o')
  {
    UpdateRecord(s, latest, op, o, o');
    var t, b := Update(s, op, o), BucketOf(key, |s.index|);
    forall j | 0 <= j < |t.index[b]| && t.index[b][j].inUse && t.index[b][j].tag == TagOf(key)
               && InLog(t.log, t.index[b][j].offset) && KeyAt(t.log, t.index[b][j].offset) == key
      ensures t.index[b][j].offset == o'
    {
      assert BucketOk(s.index[b]) && SlotOk(s, latest, b, j);
      UpdateRecord(s, latest, op, o, s.index[b][j].offset);
    }
  }

  // ----- A batch resolves every lookup before it executes anything -----

  /** What the lookup of `key` in the store `s0` at the start of the batch is still worth in `s`. */
  ghost predicate Resolved(s0: Store, s: Store, latest: Values, key: seq<byte>)
    requires |s0.index| > 0 && |s.index| > 0 && |key| == 8
  {
    var c := Candidate(s0, key);
    c.Some? ==>
      && c.value % STRIDE == 0 && c.value + STRIDE <= s.head <= |s.log| && InLog(s0.log, c.value)
      && KeyAt(s.log, c.value) == KeyAt(s0.log, c.value)
      && LenAt(s.log, c.value) == LenAt(s0.log, c.value)
      && (KeyAt(s0.log, c.value) == key ==> Pinned(s, latest, key, c.value))
  }

  lemma ResolvedAtStart(s: Store, latest: Values, key: seq<byte>)
    requires Ok(s, latest) && |key| == 8
    ensures Resolved(s, s, latest, key)
  {
    var b := BucketOf(key, |s.index|);
    assert BucketOk(s.index[b]);
    var j := FirstTag(s.index[b], TagOf(key), 0);
    if j < SLOTS {
      assert SlotOk(s, latest, b, j);
      if KeyAt(s.log, s.index[b][j].offset) == key { FindPins(s, latest, key); }
    }
  }

  /** An insert happens only for a key the start of the batch did not have, so no other lookup goes stale. */
  lemma ResolvedInsert(s0: Store, s: Store, latest: Values, op: Op, key: seq<byte>)
    requires Ok(s, latest) && s.head + STRIDE <= |s.log| && |key| == 8 && |s0.index| > 0
    requires Find(s0, op.key).None? && Resolved(s0, s, latest, key)
    ensures BucketOk(s.index[BucketOf(op.key, |s.index|)])
    ensures Resolved(s0, Insert(s, op), latest[op.key := Given(op)], key)
  {
    assert BucketOk(s.index[BucketOf(op.key, |s.index|)]);
    var c := Candidate(s0, key);
    if c.Some? {
      var log := Pasted(s.log, s.head, Bytes(op));
      assert log[..s.head] == s.log[..s.head];
      assert KeyAt(log, c.value) == log[..s.head][c.value + 8..c.value + 16];
      assert LenAt(log, c.value) == log[..s.head][c.value + 17];
      if KeyAt(s0.log, c.value) == key { InsertKeepsPins(s, latest, op, key, c.value); }
    }
  }

  lemma UpdateKeepsKey(s: Store, op: Op, o: nat, o': nat)
    requires InLog(s.log, o) && InLog(s.log, o') && o % STRIDE == 0 && o' % STRIDE == 0
    ensures KeyAt(Update(s, op, o).log, o') == KeyAt(s.log, o')
    ensures LenAt(Update(s, op, o).log, o') == LenAt(s.log, o')
  {
    assert o' + STRIDE <= o || o + STRIDE <= o' || o' == o;
  }

  /** An update in place keeps every lookup of the batch, those of its own key included. */
  lemma ResolvedUpdate(s0: Store, s: Store, latest: Values, op: Op, o: nat, key: seq<byte>)
    requires Ok(s, latest) && |s0.index| > 0 && Find(s0, op.key) == Some(o)
    requires Pinned(s, latest, op.key, o) && op.len == LenAt(s.log, o) && |key| == 8
    requires Resolved(s0, s, latest, key)
    ensures Resolved(s0, Update(s, op, o), latest[op.key := Given(op)], key)
  {
    var c := Candidate(s0, key);
    if c.Some? {
      UpdateKeepsKey(s, op, o, c.value);
      if KeyAt(s0.log, c.value) == key { UpdateKeepsPins(s, latest, op, o, key, c.value); }
    }
  }
}
