/** Which keys an insert into the lossy hash table costs, and which keys can therefore never be lost. */
module MicaRoom {
  import opened MicaLog

  /** The bucket has an unused slot, or one with this tag. */
  ghost predicate HasRoom(slots: seq<Slot>, tag: nat) {
    exists j :: 0 <= j < |slots| && (!slots[j].inUse || slots[j].tag == tag)
  }

  predicate SamePlace(key: seq<byte>, other: seq<byte>, buckets: nat)
    requires |key| == 8 && |other| == 8 && buckets > 0
  {
    BucketOf(key, buckets) == BucketOf(other, buckets) && TagOf(key) == TagOf(other)
  }

  /** The slot the insert takes, seen from the bucket: the tag's own, an unused one, or the one the tag names. */
  lemma TakesItsOwn(slots: seq<Slot>, tag: nat)
    requires BucketOk(slots)
    ensures var slot := slots[SlotFor(slots, tag)];
            if HasRoom(slots, tag) then !slot.inUse || slot.tag == tag
            else slot.inUse && slot.tag != tag && SlotFor(slots, tag) == tag % 8
  {
  }

  /** Where another tag leads after a slot was given to `tag`. */
  lemma OtherTag(slots: seq<Slot>, tag: nat, offset: nat, other: nat)
    requires BucketOk(slots) && other != tag
    ensures var j, after := SlotFor(slots, tag), slots[SlotFor(slots, tag) := Slot(true, tag, offset)];
            var was := FirstTag(slots, other, 0);
            FirstTag(after, other, 0) == if was == j then SLOTS else was
  {
    var j, after := SlotFor(slots, tag), slots[SlotFor(slots, tag) := Slot(true, tag, offset)];
    var was, now := FirstTag(slots, other, 0), FirstTag(after, other, 0);
    if was < SLOTS && was != j {
      assert after[was] == slots[was];
      assert now <= was;
      assert after[now] == slots[now];
    }
  }

  /** A lookup that ends at an untouched slot ends as before. */
  lemma SameSlotFound(s: Store, latest: Values, op: Op, key: seq<byte>, j: nat)
    requires Ok(s, latest) && s.head + STRIDE <= |s.log| && |key| == 8 && BucketOk(s.index[BucketOf(op.key, |s.index|)])
    requires var b := BucketOf(key, |s.index|);
             && |s.index[b]| == |Insert(s, op).index[b]| == SLOTS && j <= SLOTS
             && FirstTag(s.index[b], TagOf(key), 0) == FirstTag(Insert(s, op).index[b], TagOf(key), 0) == j
             && (j < SLOTS ==> Insert(s, op).index[b][j] == s.index[b][j])
    ensures Find(Insert(s, op), key) == Find(s, key)
  {
    var b := BucketOf(key, |s.index|);
    if j < SLOTS {
      assert SlotOk(s, latest, b, j);
      PasteKeepsRecord(s, latest, op, s.index[b][j].offset);
    }
  }

  /** The key the tag's slot leads to is now the inserted one. */
  lemma SamePlaceLost(s: Store, latest: Values, op: Op, key: seq<byte>)
    requires Ok(s, latest) && s.head + STRIDE <= |s.log| && |key| == 8 && key != op.key
    requires SamePlace(key, op.key, |s.index|)
    ensures BucketOk(s.index[BucketOf(op.key, |s.index|)])
    ensures Find(Insert(s, op), key) == None
  {
    InsertOk(s, latest, op);
  }

  /**
   What an insert costs. While the bucket has an unused slot or one with the tag, every key with another tag or in
   another bucket is found exactly as before. Otherwise the one key in slot `tag % 8` is lost and no other.
   */
  lemma InsertCosts(s: Store, latest: Values, op: Op, key: seq<byte>)
    requires Ok(s, latest) && s.head + STRIDE <= |s.log| && |key| == 8 && !SamePlace(key, op.key, |s.index|)
    ensures BucketOk(s.index[BucketOf(op.key, |s.index|)])
    ensures var b, tag := BucketOf(op.key, |s.index|), TagOf(op.key);
            Find(Insert(s, op), key) ==
              if !HasRoom(s.index[b], tag) && BucketOf(key, |s.index|) == b
                 && s.index[b][tag % 8].tag == TagOf(key)
              then None else Find(s, key)
  {
    var b, tag, home := BucketOf(op.key, |s.index|), TagOf(op.key), BucketOf(key, |s.index|);
    assert BucketOk(s.index[b]) && BucketOk(s.index[home]);
    TakesItsOwn(s.index[b], tag);
    if home == b {
      OtherTag(s.index[b], tag, s.head, TagOf(key));
      var was := FirstTag(s.index[b], TagOf(key), 0);
      if was == SlotFor(s.index[b], tag) {
        assert s.index[b][was].tag == TagOf(key);
      } else {
        SameSlotFound(s, latest, op, key, was);
      }
    } else {
      SameSlotFound(s, latest, op, key, FirstTag(s.index[home], TagOf(key), 0));
    }
  }

  // ----- Keys that are never lost -----

  /** The tags ever put into the bucket. */
  ghost function Tags(latest: Values, buckets: nat, b: nat): set<nat>
    requires buckets > 0
  {
    set key | key in latest && |key| == 8 && BucketOf(key, buckets) == b :: TagOf(key)
  }

  /** No other key ever put shares bucket and tag with this one. */
  ghost predicate Sole(latest: Values, buckets: nat, key: seq<byte>)
    requires buckets > 0 && |key| == 8
  {
    key in latest && forall other :: other in latest && |other| == 8 && SamePlace(key, other, buckets) ==> other == key
  }

  /** A bucket that has seen no more tags than it has slots still leads somewhere for each of them. */
  ghost predicate BucketKept(s: Store, latest: Values, b: nat)
    requires b < |s.index|
  {
    |s.index[b]| == SLOTS
    && (|Tags(latest, |s.index|, b)| <= SLOTS ==>
          forall tag :: tag in Tags(latest, |s.index|, b) ==> FirstTag(s.index[b], tag, 0) < SLOTS)
  }

  ghost predicate Kept(s: Store, latest: Values) {
    forall b :: 0 <= b < |s.index| ==> BucketKept(s, latest, b)
  }

  /** A key whose tag is its own, in a bucket that has seen at most eight tags. */
  ghost predicate Protected(latest: Values, buckets: nat, key: seq<byte>)
    requires buckets > 0 && |key| == 8
  {
    Sole(latest, buckets, key) && |Tags(latest, buckets, BucketOf(key, buckets))| <= SLOTS
  }

  /** In such a bucket, a key that shares its tag with no other is found. */
  lemma KeptFinds(s: Store, latest: Values, key: seq<byte>)
    requires Ok(s, latest) && |key| == 8 && Kept(s, latest) && Protected(latest, |s.index|, key)
    ensures Find(s, key).Some?
  {
    var b := BucketOf(key, |s.index|);
    assert BucketKept(s, latest, b);
    assert TagOf(key) in Tags(latest, |s.index|, b);
    var j := FirstTag(s.index[b], TagOf(key), 0);
    assert SlotOk(s, latest, b, j);
  }

  /** The tags of the first `n` slots, if all are in use. */
  ghost function SlotTags(slots: seq<Slot>, n: nat): set<nat>
    requires n <= |slots|
  {
    if n == 0 then {} else SlotTags(slots, n - 1) + {slots[n - 1].tag}
  }

  lemma {:induction false} SlotTagsSize(slots: seq<Slot>, n: nat)
    requires BucketOk(slots) && n <= SLOTS && forall j :: 0 <= j < SLOTS ==> slots[j].inUse
    ensures |SlotTags(slots, n)| == n
    ensures forall t :: t in SlotTags(slots, n) ==> exists j :: 0 <= j < n && slots[j].tag == t
  {
    if n == 0 {
    } else {
      SlotTagsSize(slots, n - 1);
    }
  }

  lemma TagsGrow(latest: Values, buckets: nat, b: nat, key: seq<byte>, value: seq<byte>)
    requires buckets > 0 && |key| == 8
    ensures Tags(latest[key := value], buckets, b)
            == Tags(latest, buckets, b) + if BucketOf(key, buckets) == b then {TagOf(key)} else {}
  {
    var after := latest[key := value];
    forall t | t in Tags(latest, buckets, b) ensures t in Tags(after, buckets, b) {
      var k :| k in latest && |k| == 8 && BucketOf(k, buckets) == b && TagOf(k) == t;
      assert k in after;
    }
    if BucketOf(key, buckets) == b { assert key in after; }
  }

  /** A bucket that has seen fewer than its slots of other tags has room for one more. */
  lemma RoomWhileFew(s: Store, latest: Values, b: nat, tag: nat)
    requires Ok(s, latest) && b < |s.index|
    requires |Tags(latest, |s.index|, b) + {tag}| <= SLOTS
    ensures HasRoom(s.index[b], tag)
  {
    var slots, tags := s.index[b], Tags(latest, |s.index|, b);
    assert BucketOk(slots);
    if !HasRoom(slots, tag) {
      SlotTagsSize(slots, SLOTS);
      forall t | t in SlotTags(slots, SLOTS) ensures t in tags && t != tag {
        var j :| 0 <= j < SLOTS && slots[j].tag == t;
        assert SlotOk(s, latest, b, j);
        assert KeyAt(s.log, slots[j].offset) in latest;
      }
      SubsetSize(SlotTags(slots, SLOTS) + {tag}, tags + {tag});
      assert false;
    }
  }

  lemma SubsetSize<T>(a: set<T>, b: set<T>)
    requires a <= b
    ensures |a| <= |b|
  {
    assert b == a + (b - a);
  }

  lemma InsertKeepsBucket(s: Store, latest: Values, op: Op, b: nat)
    requires Ok(s, latest) && s.head + STRIDE <= |s.log| && b < |s.index| && BucketKept(s, latest, b)
    ensures BucketOk(s.index[BucketOf(op.key, |s.index|)])
    ensures BucketKept(Insert(s, op), latest[op.key := Given(op)], b)
  {
    var home, tag, latest' := BucketOf(op.key, |s.index|), TagOf(op.key), latest[op.key := Given(op)];
    assert BucketOk(s.index[home]);
    var t, before := Insert(s, op), Tags(latest, |s.index|, b);
    TagsGrow(latest, |s.index|, b, op.key, Given(op));
    if b == home && |Tags(latest', |s.index|, b)| <= SLOTS {
      SubsetSize(before, before + {tag});
      RoomWhileFew(s, latest, b, tag);
      TakesItsOwn(s.index[b], tag);
      forall other | other in before + {tag} ensures FirstTag(t.index[b], other, 0) < SLOTS {
        if other == tag {
          assert t.index[b][SlotFor(s.index[b], tag)] == Slot(true, tag, s.head);
        } else {
          OtherTag(s.index[b], tag, s.head, other);
        }
      }
    }
  }

  lemma InsertKeeps(s: Store, latest: Values, op: Op)
    requires Ok(s, latest) && s.head + STRIDE <= |s.log| && Kept(s, latest)
    ensures BucketOk(s.index[BucketOf(op.key, |s.index|)])
    ensures Kept(Insert(s, op), latest[op.key := Given(op)])
  {
    assert BucketOk(s.index[BucketOf(op.key, |s.index|)]);
    var t, latest' := Insert(s, op), latest[op.key := Given(op)];
    forall b | 0 <= b < |t.index| ensures BucketKept(t, latest', b) {
      assert BucketKept(s, latest, b);
      InsertKeepsBucket(s, latest, op, b);
    }
  }

  /** An update in place changes no slot and puts no new key. */
  lemma UpdateKeeps(s: Store, latest: Values, op: Op, o: nat)
    requires Kept(s, latest) && InLog(s.log, o) && op.key in latest && |s.index| > 0
    ensures Kept(Update(s, op, o), latest[op.key := Given(op)])
  {
    var t, latest' := Update(s, op, o), latest[op.key := Given(op)];
    forall b | 0 <= b < |t.index| ensures BucketKept(t, latest', b) {
      assert BucketKept(s, latest, b);
      TagsGrow(latest, |s.index|, b, op.key, Given(op));
      assert Tags(latest', |s.index|, b) == Tags(latest, |s.index|, b);
    }
  }
}
