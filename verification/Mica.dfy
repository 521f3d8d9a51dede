/** The in-memory hash table as an object: inserts and batches that change the index and the log in place. */
module Mica {
  import opened MicaLog
  import opened MicaRoom

  datatype Response = GetHit(value: seq<byte>) | GetMiss | PutDone

  ghost function Put(latest: Values, op: Op): Values {
    if op.opcode == PUT then latest[op.key := Given(op)] else latest
  }

  /** The value last put for each key, after these operations too. */
  ghost function After(latest: Values, ops: seq<Op>): Values {
    if ops == [] then latest else Put(After(latest, ops[..|ops| - 1]), ops[|ops| - 1])
  }

  /**
   A get hits exactly when its key could be found in the store `s0` at the start of the batch, and then returns
   the value last put for it, earlier puts of the same batch included.
   */
  ghost predicate Answered(s0: Store, now: Values, op: Op, r: Response)
    requires |s0.index| > 0
  {
    if op.opcode == PUT then r == PutDone
    else if Find(s0, op.key).Some? then r.GetHit? && op.key in now && r.value == now[op.key]
    else r == GetMiss
  }

  /** The same, for one operation of a batch. */
  ghost predicate AnsweredAt(s0: Store, latest: Values, ops: seq<Op>, i: nat, r: Response)
    requires |s0.index| > 0 && i < |ops|
  {
    Answered(s0, After(latest, ops[..i]), ops[i], r)
  }

  lemma AfterSnoc(latest: Values, ops: seq<Op>, n: nat)
    requires n < |ops|
    ensures After(latest, ops[..n + 1]) == Put(After(latest, ops[..n]), ops[n])
  {
    assert ops[..n + 1][..n] == ops[..n];
  }

  ghost predicate AllAnswered(s0: Store, latest: Values, ops: seq<Op>, responses: seq<Response>)
    requires |s0.index| > 0 && |responses| <= |ops|
  {
    forall i :: 0 <= i < |responses| ==> AnsweredAt(s0, latest, ops, i, responses[i])
  }

  lemma AllAnsweredSnoc(s0: Store, latest: Values, ops: seq<Op>, responses: seq<Response>, r: Response)
    requires |s0.index| > 0 && |responses| < |ops| && AllAnswered(s0, latest, ops, responses)
    requires AnsweredAt(s0, latest, ops, |responses|, r)
    ensures AllAnswered(s0, latest, ops, responses + [r])
  {
  }

  /** Every lookup of the batch is still good. */
  ghost predicate AllResolved(s0: Store, s: Store, latest: Values, keys: seq<Op>)
    requires |s0.index| > 0 && |s.index| > 0
  {
    forall i :: 0 <= i < |keys| ==> Resolved(s0, s, latest, keys[i].key)
  }

  lemma SmallRemainder(x: nat, n: nat)
    requires x < n
    ensures x % n == x
  {
  }

  /** A put of a key already stored, with another length. */
  ghost predicate Mismatch(s0: Store, op: Op)
    requires |s0.index| > 0
  {
    op.opcode == PUT && Find(s0, op.key).Some? && LenAt(s0.log, Find(s0, op.key).value) != op.len
  }

  method FindTag(slots: seq<Slot>, tag: nat) returns (j: nat)
    ensures j == FirstTag(slots, tag, 0)
  {
    j := 0;
    while j < |slots| && !(slots[j].inUse && slots[j].tag == tag)
      invariant j <= |slots| && FirstTag(slots, tag, 0) == FirstTag(slots, tag, j)
    {
      j := j + 1;
    }
  }

  method ChooseSlot(slots: seq<Slot>, tag: nat) returns (slot: nat)
    requires |slots| == SLOTS
    ensures slot == SlotFor(slots, tag)
  {
    var last := -1;
    for i := 0 to SLOTS
      invariant last == LastTaking(slots, tag, i)
    {
      if slots[i].tag == tag || !slots[i].inUse { last := i; }
    }
    slot := if last == -1 then tag % SLOTS else last;
  }

  class Kv {
    const index: array<seq<Slot>>
    const log: array<byte>
    var head: nat
    ghost var latest: Values

    ghost function View(): Store
      reads this, index, log
    {
      Store(index[..], log[..], head)
    }

    ghost predicate Valid()
      reads this, index, log
    {
      Ok(View(), latest) && Kept(View(), latest)
    }

    constructor (buckets: nat, capacity: nat)
      requires buckets > 0
      ensures Valid() && latest == map[] && head == 0
      ensures index.Length == buckets && log.Length == capacity && fresh(index) && fresh(log)
    {
      var empty := seq(SLOTS, _ => Slot(false, 0, 0));
      index := new seq<Slot>[buckets](_ => empty);
      log := new byte[capacity](_ => 0);
      head, latest := 0, map[];
      new;
      assert forall b :: 0 <= b < buckets ==> Tags(map[], buckets, b) == {};
    }

    method PasteRecord(op: Op, at: nat)
      requires at + STRIDE <= log.Length
      modifies log
      ensures log[..] == Pasted(old(log[..]), at, Bytes(op))
    {
      var bytes := Bytes(op);
      forall i | 0 <= i < RECORD { log[at + i] := bytes[i]; }
    }

    /** Always succeeds: the key can be found afterwards, possibly at the price of another key of its bucket. */
    method InsertOne(op: Op)
      requires Valid() && head + STRIDE + MARGIN < log.Length
      modifies this, index, log
      ensures BucketOk(old(View()).index[BucketOf(op.key, index.Length)])
      ensures View() == Insert(old(View()), op)
      ensures Valid() && latest == old(latest)[op.key := Given(op)]
    {
      ghost var s := View();
      InsertOk(s, latest, op);
      InsertKeeps(s, latest, op);
      AlignedHead(head);
      var b, tag := BucketOf(op.key, index.Length), TagOf(op.key);
      var slot := ChooseSlot(index[b], tag);
      index[b] := index[b][slot := Slot(true, tag, head)];
      SmallRemainder(head, log.Length);
      PasteRecord(op, head % log.Length);
      head := head + RECORD;
      head := (head + 7) / 8 * 8;
      latest := latest[op.key := Given(op)];
      assert View() == Insert(s, op);
    }

    /** The first two loops of a batch: where each operation's tag leads. */
    method ResolveAll(ops: seq<Op>) returns (candidates: seq<Option<nat>>)
      requires Valid() && head < log.Length
      ensures |candidates| == |ops|
      ensures forall i :: 0 <= i < |ops| ==> candidates[i] == Candidate(View(), ops[i].key)
    {
      candidates := [];
      for i := 0 to |ops|
        invariant |candidates| == i
        invariant forall h :: 0 <= h < i ==> candidates[h] == Candidate(View(), ops[h].key)
      {
        var b := BucketOf(ops[i].key, index.Length);
        var j := FindTag(index[b], TagOf(ops[i].key));
        var c := None;
        if j < |index[b]| {
          assert BucketOk(View().index[b]) && SlotOk(View(), latest, b, j);
          if head - index[b][j].offset < log.Length { c := Some(index[b][j].offset); }
        }
        candidates := candidates + [c];
      }
    }

    method PasteValue(op: Op, o: nat)
      requires o + STRIDE <= log.Length
      modifies log
      ensures View() == Update(old(View()), op, o)
    {
      ghost var s := View();
      forall i | 0 <= i < op.len { log[o + 18 + i] := op.value[i]; }
      assert log[..] == Pasted(s.log, o + 18, Given(op));
    }

    /** A put of a key that was found: its record is overwritten, and no lookup of the batch goes stale. */
    method UpdateFound(op: Op, o: nat, ghost s0: Store, ghost keys: seq<Op>)
      requires Valid() && |s0.index| > 0 && Find(s0, op.key) == Some(o) && op.opcode == PUT
      requires Pinned(View(), latest, op.key, o) && op.len == LenAt(View().log, o)
      requires AllResolved(s0, View(), latest, keys)
      modifies this, index, log
      ensures Valid() && head == old(head) && latest == Put(old(latest), op)
      ensures AllResolved(s0, View(), latest, keys)
    {
      ghost var s, before := View(), latest;
      UpdateOk(s, before, op, o);
      UpdateKeeps(s, before, op, o);
      PasteValue(op, o);
      latest := latest[op.key := Given(op)];
      forall i | 0 <= i < |keys| ensures Resolved(s0, View(), latest, keys[i].key) {
        ResolvedUpdate(s0, s, before, op, o, keys[i].key);
      }
    }

    /** A put of a key that was not found. */
    method InsertMissing(op: Op, ghost s0: Store, ghost keys: seq<Op>)
      requires Valid() && head + STRIDE + MARGIN < log.Length && |s0.index| > 0
      requires Find(s0, op.key).None? && op.opcode == PUT && AllResolved(s0, View(), latest, keys)
      modifies this, index, log
      ensures Valid() && head == old(head) + STRIDE && latest == Put(old(latest), op)
      ensures AllResolved(s0, View(), latest, keys)
    {
      ghost var s, before := View(), latest;
      InsertOne(op);
      forall i | 0 <= i < |keys| ensures Resolved(s0, View(), latest, keys[i].key) {
        ResolvedInsert(s0, s, before, op, keys[i].key);
      }
    }

    /** One operation, given where its tag led in the store `s0` at the start of the batch. */
    method Execute(op: Op, c: Option<nat>, ghost s0: Store, ghost keys: seq<Op>) returns (ok: bool, r: Response)
      requires Valid() && head + STRIDE + MARGIN < log.Length && |s0.index| > 0 && c == Candidate(s0, op.key)
      requires Resolved(s0, View(), latest, op.key) && AllResolved(s0, View(), latest, keys)
      modifies this, index, log
      ensures Valid() && head <= old(head) + STRIDE && AllResolved(s0, View(), latest, keys)
      ensures !ok ==> Mismatch(s0, op) && latest == old(latest)
      ensures ok ==> latest == Put(old(latest), op) && Answered(s0, old(latest), op, r)
    {
      ok, r := true, PutDone;
      if c.Some? && log[c.value + 8..c.value + 16] == op.key {
        assert log[c.value + 8..c.value + 16] == KeyAt(View().log, c.value);
        if op.opcode == GET {
          r := GetHit(log[c.value + 18..c.value + 18 + log[c.value + 17]]);
        } else if op.len != log[c.value + 17] {
          ok := false;
        } else {
          UpdateFound(op, c.value, s0, keys);
        }
      } else if op.opcode == GET {
        r := GetMiss;
      } else {
        InsertMissing(op, s0, keys);
      }
    }

    /**
     A batch on the first lap of the log. It stops early only at a put whose length differs from the stored one,
     where the program aborts.
     */
    method BatchOp(ops: seq<Op>) returns (responses: seq<Response>)
      requires Valid() && head + |ops| * STRIDE + MARGIN < log.Length
      modifies this, index, log
      ensures Valid() && |responses| <= |ops| && latest == After(old(latest), ops[..|responses|])
      ensures AllAnswered(old(View()), old(latest), ops, responses)
      ensures |responses| < |ops| ==> Mismatch(old(View()), ops[|responses|])
      ensures forall i ::
                0 <= i < |responses| && ops[i].opcode == GET && Protected(old(latest), index.Length, ops[i].key) ==>
                responses[i].GetHit?
    {
      ghost var s0, latest0 := View(), latest;
      var candidates := ResolveAll(ops);
      responses := [];
      forall i | 0 <= i < |ops| ensures Resolved(s0, View(), latest, ops[i].key) {
        ResolvedAtStart(s0, latest, ops[i].key);
      }
      forall i | 0 <= i < |ops| && Protected(latest0, index.Length, ops[i].key) ensures Find(s0, ops[i].key).Some? {
        KeptFinds(s0, latest0, ops[i].key);
      }
      for n := 0 to |ops|
        invariant Valid() && |responses| == n
        invariant head + (|ops| - n) * STRIDE + MARGIN < log.Length
        invariant latest == After(latest0, ops[..n])
        invariant AllResolved(s0, View(), latest, ops)
        invariant AllAnswered(s0, latest0, ops, responses)
      {
        assert Resolved(s0, View(), latest, ops[n].key);
        var ok, r := Execute(ops[n], candidates[n], s0, ops);
        if !ok { return; }
        AfterSnoc(latest0, ops, n);
        AllAnsweredSnoc(s0, latest0, ops, responses, r);
        responses := responses + [r];
      }
      assert ops[..|ops|] == ops;
    }
  }
}
