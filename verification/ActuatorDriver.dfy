/** The actuator driver: partial states decoded from frames are merged into one latest state. */
module ActuatorDriver {
  import opened Wrappers
  import CommMonitor

  /** A decoded frame fills in some of the fields; `raw` holds the protocol's own values. */
  datatype ActuatorState = ActuatorState(
    position: Option<real>, velocity: Option<real>, torque: Option<real>, current: Option<real>,
    temperature: Option<real>, voltage: Option<real>, faultCode: Option<int>, isEnabled: Option<bool>,
    mode: Option<string>, lastFeedback: real, raw: map<string, real>)

  /** What the protocol makes of a frame. */
  datatype Decoded = Failed | NotForUs | Partial(state: ActuatorState)

  /** The last value a field had in the history, if it ever had one. */
  function LastSome<T>(h: seq<ActuatorState>, field: ActuatorState -> Option<T>): Option<T> {
    if h == [] then None
    else if field(h[|h| - 1]).Some? then field(h[|h| - 1])
    else LastSome(h[..|h| - 1], field)
  }

  /** The last value under a raw key. */
  function LastRaw(h: seq<ActuatorState>, key: string): Option<real> {
    if h == [] then None
    else if key in h[|h| - 1].raw then Some(h[|h| - 1].raw[key])
    else LastRaw(h[..|h| - 1], key)
  }

  /** The last positive feedback time. */
  function LastTime(h: seq<ActuatorState>): real {
    if h == [] then 0.0
    else if h[|h| - 1].lastFeedback > 0.0 then h[|h| - 1].lastFeedback
    else LastTime(h[..|h| - 1])
  }

  /** `v` is the merged value of a field exactly if some decoded state has it and no later one
      has any. */
  lemma {:induction false} LastSomeMeaning<T>(h: seq<ActuatorState>, field: ActuatorState -> Option<T>, v: T)
    ensures LastSome(h, field) == Some(v) <==>
            exists i :: 0 <= i < |h| && field(h[i]) == Some(v) && forall j :: i < j < |h| ==> field(h[j]).None?
  {
    if h != [] {
      var n := |h| - 1;
      LastSomeMeaning(h[..n], field, v);
      if field(h[n]).Some? {
        if LastSome(h, field) == Some(v) {
          assert field(h[n]) == Some(v);
        }
      } else {
        assert forall i :: 0 <= i < n ==> h[..n][i] == h[i];
      }
    }
  }

  /** The same for a raw key and for the time of the last feedback. */
  lemma {:induction false} LastRawMeaning(h: seq<ActuatorState>, key: string, v: real)
    ensures LastRaw(h, key) == Some(v) <==>
            exists i :: 0 <= i < |h| && key in h[i].raw && h[i].raw[key] == v
                     && forall j :: i < j < |h| ==> key !in h[j].raw
  {
    if h != [] {
      var n := |h| - 1;
      LastRawMeaning(h[..n], key, v);
      if key in h[n].raw {
        if LastRaw(h, key) == Some(v) {
          assert key in h[n].raw && h[n].raw[key] == v;
        }
      } else {
        assert forall i :: 0 <= i < n ==> h[..n][i] == h[i];
      }
    }
  }

  lemma {:induction false} LastTimeMeaning(h: seq<ActuatorState>, t: real)
    requires t > 0.0
    ensures LastTime(h) == t <==>
            exists i :: 0 <= i < |h| && h[i].lastFeedback == t && forall j :: i < j < |h| ==> h[j].lastFeedback <= 0.0
  {
    if h != [] {
      var n := |h| - 1;
      LastTimeMeaning(h[..n], t);
      if h[n].lastFeedback > 0.0 {
        if LastTime(h) == t {
          assert h[n].lastFeedback == t;
        }
      } else {
        assert forall i :: 0 <= i < n ==> h[..n][i] == h[i];
      }
    }
  }

  /** `s` holds, field by field, the last value decoded so far. */
  ghost predicate Merges(s: ActuatorState, h: seq<ActuatorState>) {
    && s.position == LastSome(h, (a: ActuatorState) => a.position)
    && s.velocity == LastSome(h, (a: ActuatorState) => a.velocity)
    && s.torque == LastSome(h, (a: ActuatorState) => a.torque)
    && s.current == LastSome(h, (a: ActuatorState) => a.current)
    && s.temperature == LastSome(h, (a: ActuatorState) => a.temperature)
    && s.voltage == LastSome(h, (a: ActuatorState) => a.voltage)
    && s.faultCode == LastSome(h, (a: ActuatorState) => a.faultCode)
    && s.isEnabled == LastSome(h, (a: ActuatorState) => a.isEnabled)
    && s.mode == LastSome(h, (a: ActuatorState) => a.mode)
    && s.lastFeedback == LastTime(h)
    && forall key :: if key in s.raw then LastRaw(h, key) == Some(s.raw[key]) else LastRaw(h, key) == None
  }

  function Newer<T>(older: Option<T>, newer: Option<T>): Option<T> {
    if newer.Some? then newer else older
  }

  function MergedWith(s: ActuatorState, p: ActuatorState): ActuatorState {
    ActuatorState(
      Newer(s.position, p.position), Newer(s.velocity, p.velocity), Newer(s.torque, p.torque),
      Newer(s.current, p.current), Newer(s.temperature, p.temperature), Newer(s.voltage, p.voltage),
      Newer(s.faultCode, p.faultCode), Newer(s.isEnabled, p.isEnabled), Newer(s.mode, p.mode),
      if p.lastFeedback > 0.0 then p.lastFeedback else s.lastFeedback, s.raw + p.raw)
  }

  lemma MergeExtends(s: ActuatorState, h: seq<ActuatorState>, p: ActuatorState)
    requires Merges(s, h)
    ensures Merges(MergedWith(s, p), h + [p])
  {
  }

  class Driver {
    const protocolId: int
    const comm: CommMonitor.BestEffortCommManager
    const transactions: CommMonitor.TransactionManager
    var position: Option<real>
    var velocity: Option<real>
    var torque: Option<real>
    var current: Option<real>
    var temperature: Option<real>
    var voltage: Option<real>
    var faultCode: Option<int>
    var isEnabled: Option<bool>
    var mode: Option<string>
    var lastFeedback: real
    var raw: map<string, real>
    /** The partial states decoded so far. */
    ghost var decoded: seq<ActuatorState>

    function State(): ActuatorState
      reads this
    {
      ActuatorState(
        position, velocity, torque, current, temperature, voltage, faultCode, isEnabled, mode, lastFeedback, raw)
    }

    ghost predicate Valid()
      reads this, comm, transactions
    {
      comm.Valid() && transactions.Valid() && Merges(State(), decoded)
    }

    constructor (protocolId: int, feedbackTimeout: real)
      ensures Valid() && fresh(comm) && fresh(transactions) && decoded == [] && comm.log == []
    {
      this.protocolId := protocolId;
      comm := new CommMonitor.BestEffortCommManager(feedbackTimeout);
      transactions := new CommMonitor.TransactionManager();
      position, velocity, torque, current, temperature, voltage := None, None, None, None, None, None;
      faultCode, isEnabled, mode, lastFeedback, raw := None, None, None, 0.0, map[];
      decoded := [];
    }

    /** One received frame. A decode error is counted, a frame for somebody else is ignored, and
        only a decoded one refreshes the monitor and the pending transaction. */
    method OnFrame(canId: int, frame: Decoded, now: real)
      requires Valid()
      modifies this, comm, transactions
      ensures Valid()
      ensures decoded == old(decoded) + if frame.Partial? then [frame.state] else []
      ensures comm.log == old(comm.log) +
                          match frame
                          case Failed => [CommMonitor.DecodeError]
                          case NotForUs => []
                          case Partial(p) =>
                            [CommMonitor.Received(if p.lastFeedback > 0.0 then p.lastFeedback else now)]
      ensures !frame.Partial? ==> State() == old(State())
      ensures old(transactions.pending) == None || !frame.Partial? ==>
                transactions.pending == old(transactions.pending) && transactions.marks == old(transactions.marks)
      ensures old(transactions.pending).Some? && frame.Partial? ==>
                && transactions.pending.Some? && transactions.marks == old(transactions.marks) + [canId]
                && transactions.pending.value.expected == old(transactions.pending).value.expected
                && transactions.pending.value.received == old(transactions.pending).value.received + {canId}
    {
      match frame {
        case Failed => comm.MarkDecodeError(now);
        case NotForUs =>
        case Partial(p) =>
          MergeState(p, now);
          transactions.MarkRx(canId);
      }
    }

    method MergeState(p: ActuatorState, now: real)
      requires Valid()
      modifies this, comm
      ensures Valid() && decoded == old(decoded) + [p]
      ensures comm.log == old(comm.log) + [CommMonitor.Received(if p.lastFeedback > 0.0 then p.lastFeedback else now)]
    {
      MergeExtends(State(), decoded, p);
      hide Merges, MergedWith;
      comm.MarkRx(if p.lastFeedback > 0.0 then p.lastFeedback else now);
      MergeFields(p);
      decoded := decoded + [p];
    }

    method MergeFields(p: ActuatorState)
      modifies this
      ensures State() == MergedWith(old(State()), p) && decoded == old(decoded)
    {
      MergeMeasurements(p);
      MergeStatus(p);
      raw := raw + p.raw;
      if p.lastFeedback > 0.0 {
        lastFeedback := p.lastFeedback;
      }
    }

    method MergeMeasurements(p: ActuatorState)
      modifies this`position, this`velocity, this`torque, this`current, this`temperature
      ensures position == Newer(old(position), p.position) && velocity == Newer(old(velocity), p.velocity)
      ensures torque == Newer(old(torque), p.torque) && current == Newer(old(current), p.current)
      ensures temperature == Newer(old(temperature), p.temperature)
    {
      if p.position.Some? {
        position := p.position;
      }
      if p.velocity.Some? {
        velocity := p.velocity;
      }
      if p.torque.Some? {
        torque := p.torque;
      }
      if p.current.Some? {
        current := p.current;
      }
      if p.temperature.Some? {
        temperature := p.temperature;
      }
    }

    method MergeStatus(p: ActuatorState)
      modifies this`voltage, this`faultCode, this`isEnabled, this`mode
      ensures voltage == Newer(old(voltage), p.voltage) && faultCode == Newer(old(faultCode), p.faultCode)
      ensures isEnabled == Newer(old(isEnabled), p.isEnabled) && mode == Newer(old(mode), p.mode)
    {
      if p.voltage.Some? {
        voltage := p.voltage;
      }
      if p.faultCode.Some? {
        faultCode := p.faultCode;
      }
      if p.isEnabled.Some? {
        isEnabled := p.isEnabled;
      }
      if p.mode.Some? {
        mode := p.mode;
      }
    }
  }
}
