/**
 The sequentially consistent cache protocol: a PUT bumps the key's clock and broadcasts one update, and a
 replica keeps the larger of its own clock and the update's.
 */
module Sc {
  import opened Clock

  type Value = int

  datatype Replica = Replica(ts: Timestamp, value: Value)

  datatype Op =
    | Get(key: nat)
    | Put(key: nat, value: Value)
    | Upd(key: nat, ts: Timestamp, value: Value)
    | Brc(key: nat)

  datatype Response =
    | GetSuccess(seen: Replica)
    | PutSuccess(ts: Timestamp)
    | UpdSuccess
    | UpdFail
    | Miss
    | Stalled

  function OnPut(r: Replica, machine: nat, value: Value): Replica {
    Replica(Timestamp(r.ts.version + 2, machine), value)
  }

  function OnUpd(r: Replica, update: Replica): Replica {
    if Less(r.ts, update.ts) then update else r
  }

  /** One operation against a cache that holds the keys below `|lines|`. */
  function ServeOne(lines: seq<Replica>, machine: nat, op: Op): (seq<Replica>, Response) {
    if op.key >= |lines| then (lines, Miss)
    else
      var r := lines[op.key];
      match op
      case Get(key) => (lines, GetSuccess(r))
      case Put(key, value) => (lines[key := OnPut(r, machine, value)], PutSuccess(OnPut(r, machine, value).ts))
      case Upd(key, ts, value) =>
        (lines[key := OnUpd(r, Replica(ts, value))], if Less(r.ts, ts) then UpdSuccess else UpdFail)
      case Brc(key) => (lines, Stalled)
  }

  /** The operations of a batch, one after the other. */
  function Serve(lines: seq<Replica>, machine: nat, ops: seq<Op>): (r: (seq<Replica>, seq<Response>))
    ensures |r.0| == |lines| && |r.1| == |ops|
    decreases |ops|
  {
    if ops == [] then (lines, [])
    else
      var (lines', resp) := ServeOne(lines, machine, ops[0]);
      var (lines'', resps) := Serve(lines', machine, ops[1..]);
      (lines'', [resp] + resps)
  }

  predicate EvenClocks(lines: seq<Replica>) {
    forall k :: 0 <= k < |lines| ==> lines[k].ts.version % 2 == 0
  }

  lemma {:induction false} ServeSnoc(lines: seq<Replica>, machine: nat, ops: seq<Op>, op: Op)
    ensures var (mid, resps) := Serve(lines, machine, ops);
            var (end, resp) := ServeOne(mid, machine, op);
            Serve(lines, machine, ops + [op]) == (end, resps + [resp])
    decreases |ops|
  {
    if ops == [] {
      assert ops + [op] == [op] && [op][1..] == [];
      var resp := ServeOne(lines, machine, op).1;
      assert [resp] + [] == [] + [resp];
    } else {
      var (lines', first) := ServeOne(lines, machine, ops[0]);
      var (mid, rest) := Serve(lines', machine, ops[1..]);
      var last := ServeOne(mid, machine, op).1;
      assert (ops + [op])[0] == ops[0] && (ops + [op])[1..] == ops[1..] + [op];
      ServeSnoc(lines', machine, ops[1..], op);
      assert [first] + (rest + [last]) == ([first] + rest) + [last];
    }
  }

  /** The batch loop: every hit locks its line, compares under the odd version, and unlocks in place. */
  method ServeBatch(lines: array<Replica>, machine: nat, ops: seq<Op>) returns (resps: seq<Response>)
    requires EvenClocks(lines[..])
    requires forall i :: 0 <= i < |ops| && ops[i].Upd? ==> ops[i].ts.version % 2 == 0
    modifies lines
    ensures (lines[..], resps) == Serve(old(lines[..]), machine, ops)
    ensures EvenClocks(lines[..])
  {
    resps := [];
    for i := 0 to |ops|
      invariant EvenClocks(lines[..])
      invariant (lines[..], resps) == Serve(old(lines[..]), machine, ops[..i])
    {
      ghost var before := lines[..];
      var op := ops[i];
      var resp;
      if op.key >= lines.Length {
        resp := Miss;
      } else {
        var r := lines[op.key];
        var locked := r.ts.version + 1;
        match op
        case Get(key) => resp := GetSuccess(r);
        case Put(key, value) =>
          lines[key] := Replica(Timestamp(locked + 1, machine), value);
          resp := PutSuccess(Timestamp(locked + 1, machine));
        case Upd(key, ts, value) =>
          if IsGreaterVersion(locked, r.ts.cid, ts) {
            lines[key] := Replica(ts, value);
            resp := UpdSuccess;
          } else {
            resp := UpdFail;
          }
        case Brc(key) => resp := Stalled;
      }
      assert lines[..] == ServeOne(before, machine, op).0;
      ServeSnoc(old(lines[..]), machine, ops[..i], op);
      assert ops[..i + 1] == ops[..i] + [op];
      resps := resps + [resp];
    }
    assert ops[..|ops|] == ops;
  }
}
