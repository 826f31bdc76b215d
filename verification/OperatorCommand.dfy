/** The operator's shared record and the calls that publish it. */
module OperatorCommand {
  import opened Wrappers
  import opened Bytes

  datatype Code = NONE | ENABLE | DISABLE | DAMPING | ZERO_SET | ESTOP | RESET_FAULT | RUN {
    function Raw(): nat {
      match this
      case NONE => 0
      case ENABLE => 1
      case DISABLE => 2
      case DAMPING => 3
      case ZERO_SET => 4
      case ESTOP => 5
      case RESET_FAULT => 6
      case RUN => 7
    }
  }

  const CAPACITY: nat := 12
  const ZERO_TARGET_MAGIC: nat := 0x5A45524F
  const MAX_CAN_ID: int := 0x1FFFFFFF

  datatype ZeroTarget = ZeroTarget(canId: nat, offset: i16)

  const EMPTY_SLOT := ZeroTarget(0, 0)

  /** The twelve slots are always there; `zeroCount` says how many are meant. */
  datatype Record = Record(
    timestamp: nat, command: nat, targetMask: nat, zeroCount: nat, zeroMagic: nat, zeroTargets: seq<ZeroTarget>)
  {
    predicate Valid() {
      |zeroTargets| == CAPACITY
    }

    /** `OperatorCommandCode(int(command))`, which raises on anything above seven. */
    function Code(): Option<Code> {
      match command
      case 0 => Some(NONE)
      case 1 => Some(ENABLE)
      case 2 => Some(DISABLE)
      case 3 => Some(DAMPING)
      case 4 => Some(ZERO_SET)
      case 5 => Some(ESTOP)
      case 6 => Some(RESET_FAULT)
      case 7 => Some(RUN)
      case _ => None
    }

    /** It asks for something. */
    predicate Asks() {
      Code().Some? && Code() != Some(NONE)
    }
  }

  /** A record that asks for nothing but a code. */
  function Plain(code: Code, timestamp: nat): Record {
    Record(timestamp, code.Raw(), 0, 0, 0, seq(CAPACITY, _ => EMPTY_SLOT))
  }

  lemma CodeOfRaw(r: Record, c: Code)
    ensures r.Code() == Some(c) <==> r.command == c.Raw()
  {
  }

  datatype Error = CapacityExceeded | CanIdOutOfRange | OffsetOutOfRange

  /** What is wrong with one requested target, if anything. */
  function TargetError(t: (int, int)): Option<Error> {
    if !(0 <= t.0 <= MAX_CAN_ID) then Some(CanIdOutOfRange)
    else if !(-32768 <= t.1 <= 32767) then Some(OffsetOutOfRange)
    else None
  }

  function Slot(t: (int, int)): ZeroTarget
    requires TargetError(t).None?
  {
    ZeroTarget(t.0, t.1)
  }

  predicate InLimits(t: (int, int)) {
    0 <= t.0 <= 0x1FFFFFFF && -32768 <= t.1 <= 32767
  }

  /** `r` is the record that asks for exactly these targets. */
  ghost predicate Carries(r: Record, code: Code, targets: seq<(int, int)>, timestamp: nat) {
    && r.Valid() && r.timestamp == timestamp && r.Code() == Some(code)
    && r.zeroCount == |targets| <= CAPACITY
    && r.zeroMagic == (if targets == [] then 0 else ZERO_TARGET_MAGIC)
    && forall i :: 0 <= i < CAPACITY ==>
         if i < |targets| && InLimits(targets[i]) then
           r.zeroTargets[i].canId == targets[i].0 && r.zeroTargets[i].offset == targets[i].1
         else r.zeroTargets[i] == EMPTY_SLOT
  }

  ghost predicate Acceptable(targets: seq<(int, int)>) {
    |targets| <= 12 && forall i :: 0 <= i < |targets| ==> InLimits(targets[i])
  }

  /** Too many targets, or the first one outside its limits and whether its id or its offset is. */
  ghost predicate IsFault(targets: seq<(int, int)>, error: Error) {
    if |targets| > 12 then error == CapacityExceeded
    else exists i :: 0 <= i < |targets| && (forall j :: 0 <= j < i ==> InLimits(targets[j]))
                  && (error == CanIdOutOfRange <==> !(0 <= targets[i].0 <= 0x1FFFFFFF))
                  && (error == OffsetOutOfRange <==>
                        0 <= targets[i].0 <= 0x1FFFFFFF && !(-32768 <= targets[i].1 <= 32767))
                  && error != CapacityExceeded
  }

  method BuildCommand(code: Code, targetMask: nat, targets: seq<(int, int)>, timeNs: nat)
    returns (r: Result<Record, Error>)
    ensures r.Ok? <==> Acceptable(targets)
    ensures r.Ok? ==> Carries(r.value, code, targets, timeNs) && r.value.targetMask == targetMask
    ensures r.Err? ==> IsFault(targets, r.error)
  {
    if |targets| > CAPACITY {
      return Err(CapacityExceeded);
    }
    var slots := new ZeroTarget[CAPACITY](_ => EMPTY_SLOT);
    for i := 0 to |targets|
      invariant forall j :: 0 <= j < i ==> TargetError(targets[j]).None? && slots[j] == Slot(targets[j])
      invariant forall j :: i <= j < CAPACITY ==> slots[j] == EMPTY_SLOT
    {
      var error := TargetError(targets[i]);
      if error.Some? {
        assert forall j :: 0 <= j < i ==> InLimits(targets[j]);
        return Err(error.value);
      }
      slots[i] := Slot(targets[i]);
    }
    var magic := if targets == [] then 0 else ZERO_TARGET_MAGIC;
    r := Ok(Record(timeNs, code.Raw(), targetMask, |targets|, magic, slots[..]));
    CodeOfRaw(r.value, code);
  }

  /** The shared segment. A rejected request leaves it as it was. */
  class OperatorCommandShm {
    var buf: Record

    constructor ()
      ensures buf == Record(0, 0, 0, 0, 0, seq(CAPACITY, _ => EMPTY_SLOT))
    {
      buf := Record(0, 0, 0, 0, 0, seq(CAPACITY, _ => EMPTY_SLOT));
    }

    method Publish(code: Code, targetMask: nat, timeNs: nat)
      modifies this
      ensures Carries(buf, code, [], timeNs) && buf.targetMask == targetMask
    {
      var r := BuildCommand(code, targetMask, [], timeNs);
      buf := r.value;
    }

    method PublishZeroSet(targets: seq<(int, int)>, timeNs: nat) returns (r: Result<nat, Error>)
      modifies this
      ensures r.Ok? <==> Acceptable(targets)
      ensures r.Ok? ==> r.value == timeNs && Carries(buf, ZERO_SET, targets, timeNs) && buf.targetMask == 0
      ensures r.Err? ==> buf == old(buf) && IsFault(targets, r.error)
    {
      var command := BuildCommand(ZERO_SET, 0, targets, timeNs);
      if command.Err? {
        return Err(command.error);
      }
      buf := command.value;
      return Ok(timeNs);
    }
  }
}
