/** Freshness of the latest received value, and request/response transactions. */
module CommMonitor {
  import opened Wrappers

  /** What happens to a monitor: a value received with time stamp `t`, a decode error, or a look
      at the fault flags at clock reading `now`. */
  datatype Event = Received(t: real) | DecodeError | Looked(now: real)

  // ---------------------------------------------------------------------------
  // Functions of the whole history
  // ---------------------------------------------------------------------------

  function LastRx(log: seq<Event>): real {
    if log == [] then 0.0
    else if log[|log| - 1].Received? then log[|log| - 1].t
    else LastRx(log[..|log| - 1])
  }

  /** Stale until something is received; then as of the last look since. */
  predicate Stale(timeout: real, log: seq<Event>) {
    if log == [] then true
    else
      var init := log[..|log| - 1];
      match log[|log| - 1]
      case Received(t) => false
      case DecodeError => Stale(timeout, init)
      case Looked(now) => LastRx(init) <= 0.0 || now - LastRx(init) > timeout
  }

  function CountRx(log: seq<Event>): nat {
    if log == [] then 0
    else CountRx(log[..|log| - 1]) + if log[|log| - 1].Received? then 1 else 0
  }

  function CountErrors(log: seq<Event>): nat {
    if log == [] then 0
    else CountErrors(log[..|log| - 1]) + if log[|log| - 1].DecodeError? then 1 else 0
  }

  /** How often fresh has turned into stale. */
  function CountTimeouts(timeout: real, log: seq<Event>): nat {
    if log == [] then 0
    else
      var init := log[..|log| - 1];
      CountTimeouts(timeout, init) + if !Stale(timeout, init) && Stale(timeout, log) then 1 else 0
  }

  /** The clock never runs backwards between looks. */
  ghost predicate ClockForward(log: seq<Event>) {
    forall i, j :: 0 <= i < j < |log| && log[i].Looked? && log[j].Looked? ==> log[i].now <= log[j].now
  }

  /** Event `r` is the last reception, event `i` the last look. */
  ghost predicate LastReception(log: seq<Event>, r: nat)
    requires r < |log|
  {
    log[r].Received? && forall i :: r < i < |log| ==> !log[i].Received?
  }

  ghost predicate LastLook(log: seq<Event>, i: nat)
    requires i < |log|
  {
    log[i].Looked? && forall j :: i < j < |log| ==> !log[j].Looked?
  }

  /** A received value is fresh until a look finds it too old, and what counts is the last look:
      a look later than the timeout ends stale. */
  lemma {:induction false} StaleExactly(timeout: real, log: seq<Event>, r: nat)
    requires r < |log| && LastReception(log, r)
    ensures LastRx(log) == log[r].t
    ensures Stale(timeout, log) <==>
            exists i: nat :: r < i < |log| && LastLook(log, i) && (log[r].t <= 0.0 || log[i].now - log[r].t > timeout)
    decreases log
  {
    var n := |log| - 1;
    if r < n {
      var init := log[..n];
      StaleExactly(timeout, init, r);
      if log[n].Looked? {
        assert LastLook(log, n);
      } else {
        assert forall i: nat :: i < n ==> (LastLook(init, i) <==> LastLook(log, i));
      }
    }
  }

  lemma {:induction false} NothingReceived(timeout: real, log: seq<Event>)
    requires forall i :: 0 <= i < |log| ==> !log[i].Received?
    ensures Stale(timeout, log) && LastRx(log) == 0.0
  {
    if log != [] {
      NothingReceived(timeout, log[..|log| - 1]);
    }
  }

  /** If the history ends stale after something was received, the value was already too old, or
      had a non-positive time stamp, at some look since. */
  lemma {:induction false} StaleWasSeen(timeout: real, log: seq<Event>)
    requires Stale(timeout, log) && LastRx(log) > 0.0
    ensures exists i :: 0 <= i < |log| && log[i].Looked? && log[i].now - LastRx(log) > timeout
  {
    var init := log[..|log| - 1];
    if log[|log| - 1].DecodeError? {
      StaleWasSeen(timeout, init);
      var i :| 0 <= i < |init| && init[i].Looked? && init[i].now - LastRx(init) > timeout;
      assert log[i] == init[i];
    } else {
      assert log[|log| - 1].Looked? && log[|log| - 1].now - LastRx(log) > timeout;
    }
  }

  /** With a nondecreasing clock the only event that turns stale into fresh is a reception. */
  lemma OnlyRxRestores(timeout: real, log: seq<Event>)
    requires log != [] && ClockForward(log)
    requires Stale(timeout, log[..|log| - 1]) && !Stale(timeout, log)
    ensures log[|log| - 1].Received?
  {
    var init := log[..|log| - 1];
    if log[|log| - 1].Looked? && LastRx(init) > 0.0 {
      StaleWasSeen(timeout, init);
    }
  }

  /** Each timeout uses up a received value, so they never outnumber them. */
  lemma {:induction false} TimeoutsBoundedByRx(timeout: real, log: seq<Event>)
    requires ClockForward(log)
    ensures CountTimeouts(timeout, log) + (if Stale(timeout, log) then 0 else 1) <= CountRx(log)
  {
    if log != [] {
      var init := log[..|log| - 1];
      TimeoutsBoundedByRx(timeout, init);
      if Stale(timeout, init) && !Stale(timeout, log) {
        OnlyRxRestores(timeout, log);
      }
    }
  }

  // ---------------------------------------------------------------------------
  // The monitor object
  // ---------------------------------------------------------------------------

  datatype Status = Status(
    isOnline: bool, isStale: bool, rxCount: nat, timeoutCount: nat, decodeErrorCount: nat,
    lastRxT: real, lastFaultT: real)

  class BestEffortCommManager {
    const timeout: real
    var status: Status
    ghost var log: seq<Event>

    /** Every counter and flag is the function of the history. */
    ghost predicate Valid()
      reads this
    {
      && status.isStale == Stale(timeout, log) && status.isOnline == !status.isStale
      && status.rxCount == CountRx(log) && status.decodeErrorCount == CountErrors(log)
      && status.timeoutCount == CountTimeouts(timeout, log)
      && status.lastRxT == LastRx(log)
    }

    constructor (timeout: real)
      ensures Valid() && this.timeout == timeout && log == []
    {
      this.timeout := timeout;
      status := Status(false, true, 0, 0, 0, 0.0, 0.0);
      log := [];
    }

    method MarkRx(t: real)
      requires Valid()
      modifies this
      ensures Valid() && log == old(log) + [Received(t)]
      ensures !status.isStale && status.isOnline && status.lastRxT == t && status.rxCount == old(status.rxCount) + 1
      ensures status.timeoutCount == old(status.timeoutCount) && status.lastFaultT == old(status.lastFaultT)
      ensures status.decodeErrorCount == old(status.decodeErrorCount)
    {
      status := status.(rxCount := status.rxCount + 1, lastRxT := t, isStale := false, isOnline := true);
      log := log + [Received(t)];
    }

    method MarkDecodeError(now: real)
      requires Valid()
      modifies this
      ensures Valid() && log == old(log) + [DecodeError] && status.lastFaultT == now
      ensures status.decodeErrorCount == old(status.decodeErrorCount) + 1
      ensures status == old(status).(decodeErrorCount := status.decodeErrorCount, lastFaultT := now)
    {
      status := status.(decodeErrorCount := status.decodeErrorCount + 1, lastFaultT := now);
      log := log + [DecodeError];
    }

    method UpdateFaultFlags(now: real) returns (s: Status)
      requires Valid()
      modifies this
      ensures Valid() && log == old(log) + [Looked(now)] && s == status
      ensures status.isStale == (old(status.lastRxT) <= 0.0 || now - old(status.lastRxT) > timeout)
      ensures status.isOnline == !status.isStale && status.lastRxT == old(status.lastRxT)
      ensures status.timeoutCount == old(status.timeoutCount) + if status.isStale && !old(status.isStale) then 1 else 0
      ensures status.rxCount == old(status.rxCount) && status.decodeErrorCount == old(status.decodeErrorCount)
      ensures status.lastFaultT == if status.isStale && !old(status.isStale) then now else old(status.lastFaultT)
    {
      var wasStale := status.isStale;
      if status.lastRxT <= 0.0 {
        status := status.(isStale := true, isOnline := false);
        if !wasStale {
          status := status.(timeoutCount := status.timeoutCount + 1, lastFaultT := now);
        }
      } else {
        var stale := now - status.lastRxT > timeout;
        status := status.(isStale := stale, isOnline := !stale);
        if stale && !wasStale {
          status := status.(timeoutCount := status.timeoutCount + 1, lastFaultT := now);
        }
      }
      log := log + [Looked(now)];
      s := status;
    }
  }

  // ---------------------------------------------------------------------------
  // Transactions
  // ---------------------------------------------------------------------------

  datatype Pending = Pending(expected: set<int>, received: set<int>, eventSet: bool) {
    predicate Complete() {
      forall id :: id in expected ==> id in received
    }
  }

  class TransactionManager {
    var pending: Option<Pending>
    /** The ids received since the pending transaction was started. */
    ghost var marks: seq<int>

    ghost predicate Valid()
      reads this
    {
      pending.Some? ==>
        && (forall id :: id in pending.value.received <==> id in marks)
        && pending.value.eventSet == (pending.value.Complete() && marks != [])
    }

    constructor ()
      ensures Valid() && pending == None
    {
      pending := None;
      marks := [];
    }

    method StartTransaction(expected: set<int>)
      modifies this
      ensures Valid() && marks == [] && pending == Some(Pending(expected, {}, false))
    {
      pending := Some(Pending(expected, {}, false));
      marks := [];
    }

    method MarkRx(id: int)
      requires Valid()
      modifies this
      ensures Valid() && pending.Some? == old(pending).Some?
      ensures pending == None ==> marks == old(marks)
      ensures pending.Some? ==>
                && marks == old(marks) + [id] && pending.value.expected == old(pending).value.expected
                && pending.value.received == old(pending).value.received + {id}
                && (pending.value.eventSet <==>
                      || old(pending).value.eventSet
                      || forall x :: x in pending.value.expected ==> x in pending.value.received)
    {
      if pending == None {
        return;
      }
      var p := pending.value.(received := pending.value.received + {id});
      pending := Some(p.(eventSet := p.eventSet || p.Complete()));
      marks := marks + [id];
    }

    /** `is_done` and the event a waiter blocks on agree, except for a transaction that expects
        nothing and has seen nothing: it is done, but its event is not set. */
    method IsDone() returns (done: bool)
      requires Valid()
      ensures done <==> pending.Some? && forall id :: id in pending.value.expected ==> id in marks
      ensures pending.Some? ==>
                (done != pending.value.eventSet <==> marks == [] && forall id :: id !in pending.value.expected)
    {
      done := pending.Some? && pending.value.Complete();
    }

    method Clear()
      modifies this
      ensures Valid() && pending == None
    {
      pending := None;
    }
  }

  /** A waiter on a transaction that expects nothing is not woken although it is done. */
  method DoneWithoutEvent() returns (manager: TransactionManager, done: bool)
    ensures fresh(manager) && manager.Valid() && done
    ensures manager.pending.Some? && !manager.pending.value.eventSet
  {
    manager := new TransactionManager();
    manager.StartTransaction({});
    done := manager.IsDone();
  }
}
