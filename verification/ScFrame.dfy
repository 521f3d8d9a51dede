/**
 Frames of updates in the sequentially consistent protocol. The sender packs updates back to back at their length on
 the wire; the receiver copies the frame over an array of structures and reads one update from each.
 */
module ScFrame {
  import opened MicaLog
  import opened Wire

  /** The size of the structure: a wire-sized update and the rest of the largest value. */
  const OP_SIZE: nat := 64

  const UPD: byte := 113

  /** The first byte of the value, behind the key, the opcode and the length. */
  const VALUE_AT: nat := KEY_SIZE + 2

  /** An update as the sender packs it: its opcode, the length of every value, and the value. */
  type Update = u: seq<byte> | |u| == PUT_SIZE && u[KEY_SIZE] == UPD && u[KEY_SIZE + 1] == VALUE_SIZE
    witness seq(KEY_SIZE, _ => 0) + [UPD, VALUE_SIZE as byte] + seq(VALUE_SIZE, _ => 0)

  function Packed(updates: seq<Update>): (r: seq<byte>)
    ensures |r| == PUT_SIZE * |updates|
  {
    if updates == [] then [] else updates[0] + Packed(updates[1..])
  }

  function ReadBack(buffer: seq<byte>, n: nat): (r: seq<seq<byte>>)
    requires OP_SIZE * n <= |buffer|
    ensures |r| == n && forall k :: 0 <= k < n ==> |r[k]| == PUT_SIZE
  {
    seq(n, k requires 0 <= k < n =>
      assert OP_SIZE * (k + 1) <= OP_SIZE * n; buffer[OP_SIZE * k..OP_SIZE * k + PUT_SIZE])
  }

  /** What the handler gets: it counts the updates by the frame's length and reads that many structures. */
  function Received(buffer: seq<byte>, updates: seq<Update>): (r: seq<seq<byte>>)
    requires OP_SIZE * |updates| <= |buffer|
    ensures |r| == |updates| && forall k :: 0 <= k < |r| ==> |r[k]| == PUT_SIZE
  {
    var frame := Packed(updates);
    ReadBack(Pasted(buffer, 0, frame), |frame| / PUT_SIZE)
  }

  /** Every frame of `n` updates arrives, whatever the buffer held. */
  ghost predicate Arrives(n: nat) {
    forall updates: seq<Update>, buffer: seq<byte> :: |updates| == n && OP_SIZE * n <= |buffer| ==>
      Received(buffer, updates) == updates
  }

  lemma OneArrives(buffer: seq<byte>, updates: seq<Update>)
    requires |updates| <= 1 && OP_SIZE * |updates| <= |buffer|
    ensures Received(buffer, updates) == updates
  {
    if updates == [] {
    } else {
      assert Packed(updates) == updates[0] + [] == updates[0];
      assert Pasted(buffer, 0, updates[0])[0..PUT_SIZE] == updates[0];
    }
  }

  /** Where the second structure starts, the second update is already under way. */
  lemma SecondShifted(buffer: seq<byte>, updates: seq<Update>, i: nat)
    requires |updates| >= 2 && OP_SIZE * |updates| <= |buffer| && i < 2 * PUT_SIZE - OP_SIZE
    ensures Received(buffer, updates)[1][i] == updates[1][OP_SIZE - PUT_SIZE + i]
  {
    var frame, rest := Packed(updates), updates[1..];
    assert rest[0] == updates[1];
    assert frame == updates[0] + Packed(rest) && Packed(rest) == updates[1] + Packed(rest[1..]);
    assert frame[OP_SIZE + i] == updates[1][OP_SIZE - PUT_SIZE + i];
    assert Pasted(buffer, 0, frame)[OP_SIZE + i] == frame[OP_SIZE + i];
  }

  /**
   In every frame of two updates or more, the opcode read for the second update is a byte of its value. Unless the
   value happens to hold the opcode of an update there, the handler reads something that was not sent.
   */
  lemma SecondOpcode(buffer: seq<byte>, updates: seq<Update>)
    requires |updates| >= 2 && OP_SIZE * |updates| <= |buffer|
    ensures Received(buffer, updates)[1][KEY_SIZE] == updates[1][VALUE_AT..][OP_SIZE - PUT_SIZE - 2]
    ensures updates[1][VALUE_AT..][OP_SIZE - PUT_SIZE - 2] != UPD ==> Received(buffer, updates) != updates
  {
    SecondShifted(buffer, updates, KEY_SIZE);
  }

  /** An update of zeros, which a sender packs for a key and a value of zeros. */
  function Zeros(): (u: Update)
    ensures forall i :: VALUE_AT <= i < PUT_SIZE ==> u[i] == 0
  {
    seq(PUT_SIZE, i => if i == KEY_SIZE then UPD else if i == KEY_SIZE + 1 then VALUE_SIZE else 0)
  }

  /** The two strides differ, so a frame is read back as it was packed exactly when it holds at most one update. */
  lemma ArrivesIff(n: nat)
    ensures Arrives(n) <==> n <= 1
  {
    if n <= 1 {
      forall updates: seq<Update>, buffer: seq<byte> | |updates| == n && OP_SIZE * n <= |buffer|
        ensures Received(buffer, updates) == updates
      {
        OneArrives(buffer, updates);
      }
    } else {
      var updates: seq<Update> := seq(n, _ => Zeros());
      SecondOpcode(seq(OP_SIZE * n, _ => 0), updates);
    }
  }
}
