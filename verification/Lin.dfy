/**
 The linearizable cache protocol on one key: five line states, and invalidate, acknowledge and
 update messages over an unordered network.
 */
module Lin {
  import opened Clock

  /** Stands for the value bytes of a record. */
  type Value = int

  datatype State = Valid | Invalid | InvalidReplay | Write | WriteReplay

  /** One machine's copy of the key, seen while nobody holds its lock. */
  datatype Line = Line(state: State, pendingAcks: nat, cid: nat, version: nat, value: Value)

  datatype Response =
    | GetSuccess | GetStall
    | PutSuccess | PutFail | PutStall
    | InvSuccess | InvFail
    | AckSuccess | LastAckSuccess | AckFail
    | UpdSuccess | UpdFail

  predicate Writing(l: Line) {
    l.state.Write? || l.state.WriteReplay?
  }

  /** While a machine is writing, `cid` holds a session id and the clock's second half is the machine. */
  function Stamp(l: Line, machine: nat): Timestamp {
    Timestamp(l.version, if Writing(l) then machine else l.cid)
  }

  function OnGet(l: Line): (Line, Response) {
    match l.state
    case Valid => (l, GetSuccess)
    case Invalid => (l.(state := InvalidReplay), GetStall)
    case Write => (l.(state := WriteReplay), GetStall)
    case InvalidReplay => (l, GetStall)
    case WriteReplay => (l, GetStall)
  }

  function StartWrite(l: Line, session: nat, value: Value, machines: nat): Line
    requires machines >= 1
  {
    l.(pendingAcks := machines - 1, cid := session, version := l.version + 2, value := value)
  }

  function OnPut(l: Line, session: nat, value: Value, machines: nat): (Line, Response)
    requires machines >= 1
  {
    match l.state
    case Valid => (StartWrite(l, session, value, machines).(state := Write), PutSuccess)
    case Invalid => (StartWrite(l, session, value, machines).(state := Write), PutSuccess)
    case Write => if session >= l.cid then (StartWrite(l, session, value, machines), PutSuccess) else (l, PutFail)
    case InvalidReplay => (l, PutStall)
    case WriteReplay =>
      if session > l.cid then (StartWrite(l, session, value, machines), PutSuccess)
      else if session == l.cid then (l, PutStall)
      else (l, PutFail)
  }

  function OnInv(l: Line, machine: nat, ts: Timestamp): (Line, Response) {
    if Less(Stamp(l, machine), ts) then
      var state := if l.state.InvalidReplay? || l.state.WriteReplay? then InvalidReplay else Invalid;
      (l.(state := state, cid := ts.cid, version := ts.version), InvSuccess)
    else
      (l, InvFail)
  }

  function OnAck(l: Line, machine: nat, version: nat): (Line, Response) {
    if !Writing(l) || l.version != version then (l, AckFail)
    else if l.pendingAcks == 1 then (l.(state := Valid, cid := machine, pendingAcks := 0), LastAckSuccess)
    else (l.(pendingAcks := if l.pendingAcks == 0 then 255 else l.pendingAcks - 1), AckSuccess)
  }

  function OnUpd(l: Line, ts: Timestamp, value: Value): (Line, Response) {
    if l.version == ts.version && l.cid == ts.cid && (l.state.Invalid? || l.state.InvalidReplay?) then
      (l.(state := Valid, value := value), UpdSuccess)
    else
      (l, UpdFail)
  }

  /** The 8-byte word and the value, updated in place under the OPTIK lock. */
  class CacheLine {
    var state: State
    var pendingAcks: nat
    var cid: nat
    var locked: bool
    var version: nat
    var value: Value

    ghost predicate Unlocked()
      reads this
    {
      !locked && version % 2 == 0
    }

    ghost function Contents(): Line
      reads this
    {
      Line(state, pendingAcks, cid, version, value)
    }

    constructor (value: Value)
      ensures Unlocked() && Contents() == Line(Valid, 0, 0, 0, value)
    {
      state, pendingAcks, cid, locked, version := Valid, 0, 0, false, 0;
      this.value := value;
    }

    method Lock()
      requires Unlocked()
      modifies `locked, `version
      ensures locked && version == old(version) + 1
    {
      locked := true;
      version := version + 1;
    }

    method UnlockWrite(cid: nat) returns (written: nat)
      requires locked && version % 2 == 1
      modifies `cid, `version, `locked
      ensures Unlocked() && this.cid == cid && version == old(version) + 1 == written
    {
      this.cid := cid;
      version := version + 1;
      written := version;
      locked := false;
    }

    method UnlockDecrementVersion()
      requires locked && version % 2 == 1
      modifies `version, `locked
      ensures Unlocked() && version == old(version) - 1
    {
      version := version - 1;
      locked := false;
    }

    method UnlockAt(cid: nat, version: nat)
      requires locked && version % 2 == 0
      modifies `cid, `version, `locked
      ensures Unlocked() && this.cid == cid && this.version == version
    {
      this.cid := cid;
      this.version := version;
      locked := false;
    }

    method Get() returns (r: Response)
      requires Unlocked()
      modifies `state, `version, `locked
      ensures Unlocked() && (Contents(), r) == OnGet(old(Contents()))
    {
      match state
      case Valid => r := GetSuccess;
      case InvalidReplay => r := GetStall;
      case WriteReplay => r := GetStall;
      case _ =>
        Lock();
        state := if state.Invalid? then InvalidReplay else WriteReplay;
        r := GetStall;
        UnlockDecrementVersion();
    }

    method Put(session: nat, newValue: Value, machines: nat) returns (r: Response, written: nat)
      requires Unlocked() && machines >= 1
      modifies this
      ensures Unlocked() && (Contents(), r) == OnPut(old(Contents()), session, newValue, machines)
      ensures r.PutSuccess? ==> written == version
    {
      Lock();
      written := 0;
      if state.Valid? || state.Invalid? ||
         (state.Write? && session >= cid) || (state.WriteReplay? && session > cid) {
        if state.Valid? || state.Invalid? { state := Write; }
        value := newValue;
        pendingAcks := machines - 1;
        written := UnlockWrite(session);
        r := PutSuccess;
      } else {
        r := if state.InvalidReplay? || (state.WriteReplay? && session == cid) then PutStall else PutFail;
        UnlockDecrementVersion();
      }
    }

    method Invalidate(machine: nat, ts: Timestamp) returns (r: Response)
      requires Unlocked() && ts.version % 2 == 0
      modifies `state, `cid, `version, `locked
      ensures Unlocked() && (Contents(), r) == OnInv(old(Contents()), machine, ts)
    {
      Lock();
      var id := if state.Write? || state.WriteReplay? then machine else cid;
      if IsGreaterVersion(version, id, ts) {
        state := if state.InvalidReplay? || state.WriteReplay? then InvalidReplay else Invalid;
        UnlockAt(ts.cid, ts.version);
        r := InvSuccess;
      } else {
        UnlockDecrementVersion();
        r := InvFail;
      }
    }

    method Acknowledge(machine: nat, acked: nat) returns (r: Response)
      requires Unlocked()
      modifies `state, `cid, `pendingAcks, `version, `locked
      ensures Unlocked() && (Contents(), r) == OnAck(old(Contents()), machine, acked)
    {
      Lock();
      if (state.Write? || state.WriteReplay?) && version == acked + 1 {
        if pendingAcks == 1 {
          state, cid, pendingAcks := Valid, machine, 0;
          r := LastAckSuccess;
        } else {
          pendingAcks := if pendingAcks == 0 then 255 else pendingAcks - 1;
          r := AckSuccess;
        }
      } else {
        r := AckFail;
      }
      UnlockDecrementVersion();
    }

    method Update(ts: Timestamp, newValue: Value) returns (r: Response)
      requires Unlocked() && ts.version % 2 == 0
      modifies this
      ensures Unlocked() && (Contents(), r) == OnUpd(old(Contents()), ts, newValue)
    {
      Lock();
      if IsSameVersionPlusOne(version, cid, ts) && (state.Invalid? || state.InvalidReplay?) {
        value := newValue;
        state := Valid;
        UnlockAt(ts.cid, ts.version);
        r := UpdSuccess;
      } else {
        UnlockDecrementVersion();
        r := UpdFail;
      }
    }
  }
}
