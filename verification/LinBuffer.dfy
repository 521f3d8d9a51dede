/**
 The buffer a client copies incoming updates and acks into, by their position in the round's batch. An update fills
 the whole slot; an ack fills the key and the opcode, and leaves the value bytes of whatever was there before.
 */
module LinBuffer {
  import opened Lin
  import opened LinSystem
  import opened LinSafety
  import opened LinValues

  datatype Message = AckMessage | UpdateMessage(value: Value)

  /** The values in the buffer once a batch has been copied to its front. */
  function Copied(buffer: seq<Value>, batch: seq<Message>): (r: seq<Value>)
    ensures |r| == |buffer|
  {
    seq(|buffer|, i requires 0 <= i < |buffer| =>
      if i < |batch| && batch[i].UpdateMessage? then batch[i].value else buffer[i])
  }

  function After(buffer: seq<Value>, rounds: seq<seq<Message>>): (r: seq<Value>)
    ensures |r| == |buffer|
  {
    if rounds == [] then buffer else Copied(After(buffer, rounds[..|rounds| - 1]), rounds[|rounds| - 1])
  }

  predicate UpdateAt(rounds: seq<seq<Message>>, r: int, i: nat) {
    0 <= r < |rounds| && i < |rounds[r]| && rounds[r][i].UpdateMessage?
  }

  /** The last round whose batch had an update at position `i`, or -1. */
  function LastUpdate(rounds: seq<seq<Message>>, i: nat): (r: int)
    ensures -1 <= r < |rounds| && (r >= 0 ==> UpdateAt(rounds, r, i))
    ensures forall q :: r < q < |rounds| ==> !UpdateAt(rounds, q, i)
  {
    var n := |rounds| - 1;
    if rounds == [] then -1
    else if UpdateAt(rounds, n, i) then n
    else
      var r := LastUpdate(rounds[..n], i);
      assert forall q :: 0 <= q < n ==> UpdateAt(rounds[..n], q, i) == UpdateAt(rounds, q, i);
      r
  }

  /** The bytes of the last update, of whatever key, that was copied to position `i`, or what was there at first. */
  function Leftover(buffer: seq<Value>, rounds: seq<seq<Message>>, i: nat): Value
    requires i < |buffer|
  {
    var r := LastUpdate(rounds, i);
    if r == -1 then buffer[i] else rounds[r][i].value
  }

  lemma {:induction false} SlotHolds(buffer: seq<Value>, rounds: seq<seq<Message>>, i: nat)
    requires i < |buffer|
    ensures After(buffer, rounds)[i] == Leftover(buffer, rounds, i)
  {
    if rounds == [] {
    } else {
      SlotHolds(buffer, rounds[..|rounds| - 1], i);
    }
  }

  /**
   The last ack at position `i` of a round sends the bytes of the last update that an earlier round had at that
   position. The copies stay true to the written value exactly when those bytes are that value.
   */
  lemma LastAckSendsLeftover(
    s: System, ack: Ack, buffer: seq<Value>, rounds: seq<seq<Message>>, batch: seq<Message>, i: nat)
    requires i < |batch| <= |buffer| && batch[i].AckMessage? && Safe(s) && Faithful(s)
    requires IsLastAck(s, DeliverAck(ack, Copied(After(buffer, rounds), batch)[i]))
    ensures Faithful(AfterAck(s, ack, Copied(After(buffer, rounds), batch)[i]))
            <==> Leftover(buffer, rounds, i) == s.lines[ack.to].value
  {
    SlotHolds(buffer, rounds, i);
    LastAckFaithfulIff(s, ack, Copied(After(buffer, rounds), batch)[i]);
  }

  /** The copy loop over the polled updates and acks. */
  method CopyBatch(buffer: array<Value>, batch: seq<Message>)
    requires |batch| <= buffer.Length
    modifies buffer
    ensures buffer[..] == Copied(old(buffer[..]), batch)
  {
    for i := 0 to |batch|
      invariant buffer[..] == Copied(old(buffer[..]), batch[..i])
    {
      if batch[i].UpdateMessage? { buffer[i] := batch[i].value; }
    }
    assert batch[..|batch|] == batch;
  }
}
