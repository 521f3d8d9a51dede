/** Per-key Lamport clocks: the (version, cid) pair that the 8-byte metadata word carries. */
module Clock {

  datatype Timestamp = Timestamp(version: nat, cid: nat)

  const ZERO := Timestamp(0, 0)

  predicate Less(a: Timestamp, b: Timestamp) {
    a.version < b.version || (a.version == b.version && a.cid < b.cid)
  }

  predicate AtMost(a: Timestamp, b: Timestamp) {
    a == b || Less(a, b)
  }

  /** The comparison run while the line is locked: `locked` is the odd version, one above the clock. */
  predicate IsGreaterVersion(locked: nat, cid: nat, received: Timestamp) {
    locked < received.version || (locked - 1 == received.version && cid < received.cid)
  }

  /** The comparison used by updates: the received pair is the one the locked line stands for. */
  predicate IsSameVersionPlusOne(locked: nat, cid: nat, received: Timestamp) {
    locked == received.version + 1 && cid == received.cid
  }
}
