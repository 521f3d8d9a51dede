/**
 Data requests on the wire: a client packs the operations for one machine into a frame, and a worker parses the
 frames it collects into one batch and scatters the responses back to the requests.
 */
module Wire {
  import opened Config
  import opened MicaLog

  const KEY_SIZE: nat := 16
  const GET_SIZE: nat := 17
  const PUT_SIZE: nat := 50

  /** Anything but a put, a get in particular, is sent without the length and the value. */
  datatype Message =
    | ShortMessage(key: seq<byte>, opcode: byte)
    | PutMessage(key: seq<byte>, len: byte, value: seq<byte>)

  type WireOp = m: Message |
    |m.key| == KEY_SIZE && if m.PutMessage? then |m.value| == VALUE_SIZE else m.opcode != PUT
    witness ShortMessage(seq(KEY_SIZE, _ => 0), GET)

  function Encode(op: WireOp): (r: seq<byte>)
    ensures |r| == if op.PutMessage? then PUT_SIZE else GET_SIZE
    ensures r[..KEY_SIZE] == op.key && r[KEY_SIZE] == if op.PutMessage? then PUT else op.opcode
    ensures op.PutMessage? ==> r[17] == op.len && r[18..] == op.value
  {
    match op
    case ShortMessage(key, opcode) => key + [opcode]
    case PutMessage(key, len, value) => key + [PUT, len] + value
  }

  function Pack(ops: seq<WireOp>): seq<byte> {
    if ops == [] then [] else Encode(ops[0]) + Pack(ops[1..])
  }

  /** The length of the operation at the start of the frame, as its opcode tells. */
  function SizeOf(frame: seq<byte>): nat
    requires |frame| > KEY_SIZE
  {
    if frame[KEY_SIZE] == PUT then PUT_SIZE else GET_SIZE
  }

  function Decode(frame: seq<byte>): (op: WireOp)
    requires |frame| > KEY_SIZE && SizeOf(frame) <= |frame|
  {
    if frame[KEY_SIZE] == PUT
    then PutMessage(frame[..KEY_SIZE], frame[17], frame[18..PUT_SIZE])
    else ShortMessage(frame[..KEY_SIZE], frame[KEY_SIZE])
  }

  /** A frame made of whole operations. */
  predicate WellFormed(frame: seq<byte>)
    decreases |frame|
  {
    frame == []
    || (&& |frame| > KEY_SIZE && SizeOf(frame) <= |frame|
        && WellFormed(frame[SizeOf(frame)..]))
  }

  function Parse(frame: seq<byte>): seq<WireOp>
    requires WellFormed(frame)
    decreases |frame|
  {
    if frame == [] then [] else [Decode(frame)] + Parse(frame[SizeOf(frame)..])
  }

  // ----- Round trip -----

  lemma DecodeEncode(op: WireOp, rest: seq<byte>)
    ensures var frame := Encode(op) + rest;
            && |frame| > KEY_SIZE && SizeOf(frame) == |Encode(op)| <= |frame|
            && Decode(frame) == op && frame[SizeOf(frame)..] == rest
  {
    var frame := Encode(op) + rest;
    assert frame[..KEY_SIZE] == Encode(op)[..KEY_SIZE];
    if op.PutMessage? {
      assert frame[18..PUT_SIZE] == Encode(op)[18..] == op.value;
    }
  }

  /** Parsing a packed frame returns exactly the operations packed into it. */
  lemma {:induction false} ParsePack(ops: seq<WireOp>)
    ensures WellFormed(Pack(ops)) && Parse(Pack(ops)) == ops
  {
    if ops == [] {
    } else {
      ParsePack(ops[1..]);
      DecodeEncode(ops[0], Pack(ops[1..]));
    }
  }

  lemma EncodeDecode(frame: seq<byte>)
    requires |frame| > KEY_SIZE && SizeOf(frame) <= |frame|
    ensures Encode(Decode(frame)) == frame[..SizeOf(frame)]
  {
    if frame[KEY_SIZE] == PUT {
      assert frame[..PUT_SIZE] == frame[..KEY_SIZE] + [PUT, frame[17]] + frame[18..PUT_SIZE];
    } else {
      assert frame[..GET_SIZE] == frame[..KEY_SIZE] + [frame[KEY_SIZE]];
    }
  }

  /** And a well-formed frame is the packing of what it parses to. */
  lemma {:induction false} PackParse(frame: seq<byte>)
    requires WellFormed(frame)
    ensures Pack(Parse(frame)) == frame
    decreases |frame|
  {
    if frame == [] {
    } else {
      var rest := frame[SizeOf(frame)..];
      PackParse(rest);
      EncodeDecode(frame);
      assert ([Decode(frame)] + Parse(rest))[1..] == Parse(rest);
      assert frame == frame[..SizeOf(frame)] + rest;
    }
  }

  /** The parser stands at `offset`, with the first `k` of all the operations behind it. */
  ghost predicate ParsedTo(frame: seq<byte>, all: seq<WireOp>, offset: nat, k: nat) {
    && offset <= |frame| && k <= |all|
    && WellFormed(frame[offset..]) && Parse(frame[offset..]) == all[k..]
    && (offset == |frame| ==> k == |all|)
  }

  lemma ParsedToStart(frame: seq<byte>)
    requires WellFormed(frame)
    ensures ParsedTo(frame, Parse(frame), 0, 0)
  {
    assert frame[0..] == frame;
  }

  lemma ParsedToNext(frame: seq<byte>, all: seq<WireOp>, offset: nat, k: nat)
    requires ParsedTo(frame, all, offset, k) && offset < |frame|
    ensures offset + KEY_SIZE < |frame| && SizeOf(frame[offset..]) <= |frame| - offset
    ensures k < |all| && Decode(frame[offset..]) == all[k] && all[..k + 1] == all[..k] + [all[k]]
    ensures ParsedTo(frame, all, offset + if frame[offset + KEY_SIZE] == PUT then PUT_SIZE else GET_SIZE, k + 1)
  {
    var rest := frame[offset..];
    assert rest[SizeOf(rest)..] == frame[offset + SizeOf(rest)..];
    assert all[k + 1..] == all[k..][1..];
  }

  // ----- Packing -----

  lemma {:induction false} PackSnoc(ops: seq<WireOp>, op: WireOp)
    ensures Pack(ops + [op]) == Pack(ops) + Encode(op)
  {
    if ops == [] {
      assert [op][1..] == [] && ops + [op] == [op];
      assert Pack([op]) == Encode(op) + [];
    } else {
      assert (ops + [op])[0] == ops[0] && (ops + [op])[1..] == ops[1..] + [op];
      PackSnoc(ops[1..], op);
    }
  }

  lemma {:induction false} PackPrefix(ops: seq<WireOp>, n: nat)
    requires n <= |ops|
    ensures |Pack(ops[..n])| <= |Pack(ops)|
    decreases |ops| - n
  {
    if n < |ops| {
      PackSnoc(ops[..n], ops[n]);
      assert ops[..n + 1] == ops[..n] + [ops[n]];
      PackPrefix(ops, n + 1);
    } else {
      assert ops[..n] == ops;
    }
  }

  lemma PackNext(ops: seq<WireOp>, i: nat)
    requires i < |ops|
    ensures Pack(ops[..i + 1]) == Pack(ops[..i]) + Encode(ops[i]) && |Pack(ops[..i + 1])| <= |Pack(ops)|
  {
    PackSnoc(ops[..i], ops[i]);
    assert ops[..i + 1] == ops[..i] + [ops[i]];
    PackPrefix(ops, i + 1);
  }

  method TotalLength(ops: seq<WireOp>) returns (total: nat)
    ensures total == |Pack(ops)|
  {
    total := 0;
    for i := 0 to |ops|
      invariant total == |Pack(ops[..i])|
    {
      PackNext(ops, i);
      total := total + if ops[i].PutMessage? then PUT_SIZE else GET_SIZE;
    }
    assert ops[..|ops|] == ops;
  }

  method CopyInto(buffer: array<byte>, offset: nat, bytes: seq<byte>)
    requires offset + |bytes| <= buffer.Length
    modifies buffer
    ensures buffer[..offset + |bytes|] == old(buffer[..offset]) + bytes
  {
    forall k | 0 <= k < |bytes| { buffer[offset + k] := bytes[k]; }
  }

  /** The client's two loops: add up the lengths, then copy each operation at its offset. */
  method PackFrame(ops: seq<WireOp>) returns (buffer: array<byte>)
    ensures fresh(buffer) && buffer[..] == Pack(ops)
  {
    var total := TotalLength(ops);
    buffer := new byte[total](_ => 0);
    var offset := 0;
    for i := 0 to |ops|
      invariant fresh(buffer) && buffer.Length == total && offset == |Pack(ops[..i])| <= total
      invariant buffer[..offset] == Pack(ops[..i])
    {
      PackNext(ops, i);
      var bytes := Encode(ops[i]);
      CopyInto(buffer, offset, bytes);
      offset := offset + |bytes|;
    }
    assert ops[..|ops|] == ops;
  }

  // ----- The worker -----

  function Concat(requests: seq<seq<WireOp>>): seq<WireOp> {
    if requests == [] then [] else Concat(requests[..|requests| - 1]) + requests[|requests| - 1]
  }

  /** Where the operations of request `i` start in the batch. */
  function Start(requests: seq<seq<WireOp>>, i: nat): nat
    requires i <= |requests|
  {
    if i == 0 then 0 else Start(requests, i - 1) + |requests[i - 1]|
  }

  lemma {:induction false} ConcatAt(requests: seq<seq<WireOp>>, i: nat)
    requires i < |requests|
    ensures Start(requests, i) + |requests[i]| <= |Concat(requests)| == Start(requests, |requests|)
    ensures Concat(requests)[Start(requests, i)..Start(requests, i) + |requests[i]|] == requests[i]
  {
    var n := |requests| - 1;
    StartPrefix(requests, n, n);
    if i < n {
      ConcatAt(requests[..n], i);
      StartPrefix(requests, n, i);
    } else {
      ConcatLength(requests[..n]);
    }
  }

  lemma {:induction false} StartPrefix(requests: seq<seq<WireOp>>, n: nat, i: nat)
    requires i <= n <= |requests|
    ensures Start(requests[..n], i) == Start(requests, i)
  {
    if i == 0 {
    } else {
      StartPrefix(requests, n, i - 1);
    }
  }

  lemma {:induction false} ConcatLength(requests: seq<seq<WireOp>>)
    ensures |Concat(requests)| == Start(requests, |requests|)
  {
    if requests == [] {
    } else {
      ConcatLength(requests[..|requests| - 1]);
      StartPrefix(requests, |requests| - 1, |requests| - 1);
    }
  }

  /** Request `i` gets the responses at the positions where the batch holds its operations. */
  ghost predicate OwnReply<R>(requests: seq<seq<WireOp>>, i: nat, batch: seq<WireOp>, responses: seq<R>, reply: seq<R>)
    requires i < |requests| && |batch| == |responses|
  {
    var from, n := Start(requests, i), |requests[i]|;
    from + n <= |batch| && batch[from..from + n] == requests[i] && reply == responses[from..from + n]
  }

  class WorkerContext {
    const ops: array<WireOp>
    const opsInReq: array<nat>
    var totalOps: nat
    var reqsPerLoop: nat
    ghost var requests: seq<seq<WireOp>>

    ghost predicate Valid()
      reads this, ops, opsInReq
    {
      && ops.Length == WORKER_MAX_BATCH && opsInReq.Length == MACHINES
      && reqsPerLoop == |requests| <= MACHINES && totalOps <= WORKER_MAX_BATCH
      && ops[..totalOps] == Concat(requests)
      && forall i :: 0 <= i < |requests| ==> opsInReq[i] == |requests[i]|
    }

    constructor ()
      ensures Valid() && requests == [] && fresh(ops) && fresh(opsInReq)
    {
      ops := new WireOp[WORKER_MAX_BATCH](_ => ShortMessage(seq(KEY_SIZE, _ => 0), GET));
      opsInReq := new nat[MACHINES](_ => 0);
      totalOps, reqsPerLoop, requests := 0, 0, [];
    }

    /** Adds an operation to the batch, on the account of the request being parsed. */
    method AddOp(op: WireOp)
      requires totalOps < ops.Length && reqsPerLoop < opsInReq.Length
      modifies `totalOps, ops, opsInReq
      ensures totalOps == old(totalOps) + 1 && ops[..totalOps] == old(ops[..totalOps]) + [op]
      ensures opsInReq[reqsPerLoop] == old(opsInReq[reqsPerLoop]) + 1 && OthersKept(old(opsInReq[..]))
    {
      ops[totalOps] := op;
      totalOps := totalOps + 1;
      opsInReq[reqsPerLoop] := opsInReq[reqsPerLoop] + 1;
    }

    /** The counts of the requests already parsed. */
    ghost predicate OthersKept(counts: seq<nat>)
      reads this, opsInReq
    {
      |counts| == opsInReq.Length && forall i :: 0 <= i < |counts| && i != reqsPerLoop ==> opsInReq[i] == counts[i]
    }

    /** The parse loop: operations are as long as their opcode says. */
    method ParseFrame(frame: seq<byte>)
      requires WellFormed(frame) && reqsPerLoop < opsInReq.Length && totalOps + |Parse(frame)| <= ops.Length
      modifies `totalOps, ops, opsInReq
      ensures totalOps == old(totalOps) + |Parse(frame)| && ops[..totalOps] == old(ops[..totalOps]) + Parse(frame)
      ensures opsInReq[reqsPerLoop] == |Parse(frame)| && OthersKept(old(opsInReq[..]))
    {
      ghost var k, all, counts := 0, Parse(frame), opsInReq[..];
      opsInReq[reqsPerLoop] := 0;
      var offset := 0;
      ParsedToStart(frame);
      while offset < |frame|
        invariant ParsedTo(frame, all, offset, k)
        invariant totalOps == old(totalOps) + k && ops[..totalOps] == old(ops[..totalOps]) + all[..k]
        invariant opsInReq[reqsPerLoop] == k && OthersKept(counts)
        decreases |frame| - offset
      {
        ParsedToNext(frame, all, offset, k);
        AddOp(Decode(frame[offset..]));
        k := k + 1;
        offset := offset + if frame[offset + KEY_SIZE] == PUT then PUT_SIZE else GET_SIZE;
      }
      assert all[..k] == all;
    }

    /** Parses one request into the batch being collected. */
    method ReqHandler(frame: seq<byte>)
      requires Valid() && WellFormed(frame)
      requires reqsPerLoop < MACHINES && totalOps + |Parse(frame)| <= WORKER_MAX_BATCH
      modifies this, ops, opsInReq
      ensures Valid() && requests == old(requests) + [Parse(frame)]
    {
      ghost var counts := opsInReq[..];
      ParseFrame(frame);
      assert OthersKept(counts);
      requests := requests + [Parse(frame)];
      reqsPerLoop := reqsPerLoop + 1;
      assert requests[..|requests| - 1] == old(requests);
    }

    /** Scatters the responses of the whole batch: each request gets those of its own operations, in order. */
    method DrainBatch<R>(responses: seq<R>) returns (replies: seq<seq<R>>)
      requires Valid() && |responses| == totalOps
      ensures |replies| == |requests|
      ensures forall i :: 0 <= i < |requests| ==> OwnReply(requests, i, ops[..totalOps], responses, replies[i])
    {
      replies := [];
      var offset := 0;
      ghost var batch := ops[..totalOps];
      ConcatLength(requests);
      for i := 0 to reqsPerLoop
        invariant |replies| == i && offset == Start(requests, i) <= totalOps
        invariant forall h :: 0 <= h < i ==> OwnReply(requests, h, batch, responses, replies[h])
      {
        ConcatAt(requests, i);
        var n := opsInReq[i];
        replies := replies + [responses[offset..offset + n]];
        offset := offset + n;
      }
    }
  }
}
