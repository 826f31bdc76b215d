/** The daemon as an object. Each call runs to completion by itself; its past is a run of the
    step system of module `TxDaemon`, so what holds of every interleaving holds of the object. */
module CanDaemon {
  import opened Wrappers
  import opened TxDaemon

  class CANDaemon<Frame> {
    const maxTxQueueSize: int
    var txQueue: seq<Frame>
    var started: bool
    var stopEvent: bool
    /** Where the sender thread stands. */
    var sender: Sender

    /** The queued frames with the requests they came from, and the daemon's past. */
    ghost var items: seq<Item<Frame>>
    ghost var clients: seq<Client<Frame>>
    ghost var accepted: seq<Item<Frame>>
    ghost var taken: seq<Item<Frame>>
    ghost var states: seq<State<Frame>>
    ghost var acts: seq<Action<Frame>>

    ghost function Abs(): State<Frame>
      reads this
    {
      State(maxTxQueueSize, items, started, stopEvent, sender, clients, accepted, taken)
    }

    ghost predicate Valid()
      reads this
    {
      && |items| == |txQueue| && (forall i :: 0 <= i < |items| ==> items[i].frame == txQueue[i])
      && IsRun(states, acts) && states[|acts|] == Abs()
    }

    constructor (maxTxQueueSize: int, ghost handlers: nat)
      ensures Valid() && acts == [] && txQueue == [] && |clients| == handlers
    {
      this.maxTxQueueSize := maxTxQueueSize;
      txQueue := [];
      started, stopEvent, sender := false, false, NoThread;
      items, accepted, taken := [], [], [];
      clients := seq(handlers, _ => Client([], [], []));
      acts := [];
      new;
      states := [Abs()];
    }

    ghost method Record(a: Action<Frame>)
      requires IsRun(states, acts) && IsStep(states[|acts|], a, Abs())
      modifies this`states, this`acts
      ensures IsRun(states, acts) && states[|acts|] == Abs() && acts == old(acts) + [a]
    {
      ExtendRun(states, acts, a, Abs());
      states, acts := states + [Abs()], acts + [a];
    }

    /** One line of a client: asked, decided and answered. */
    method HandleTxRequest(ghost c: nat, r: Request<Frame>) returns (ok: bool)
      requires Valid() && c < |clients| && |clients[c].requests| == |clients[c].replies|
      modifies this
      ensures Valid() && acts == old(acts) + [Ask(c, r), if ok then Accept(c) else Reject(c), Reply(c)]
      ensures ok <==> r.Send? && (maxTxQueueSize <= 0 || |old(txQueue)| < maxTxQueueSize)
      ensures txQueue == if ok then old(txQueue) + [r.frame] else old(txQueue)
    {
      hide Valid, IsRun;
      ReadLine(c, r);
      if r.Garbled? {
        Refuse(c);
        ok := false;
      } else {
        ok := Send(c, r.frame);
      }
      WriteLine(c, ok);
    }

    ghost method ReadLine(c: nat, r: Request<Frame>)
      requires Valid() && c < |clients| && |clients[c].requests| == |clients[c].replies|
      modifies this`clients, this`states, this`acts
      ensures Valid() && acts == old(acts) + [Ask(c, r)] && |clients| == |old(clients)|
      ensures clients[c].decided == clients[c].replies == old(clients[c].replies)
      ensures clients[c].requests == old(clients[c].requests) + [r]
    {
      StaysInStep(states, acts, c);
      hide IsRun;
      clients := clients[c := clients[c].(requests := clients[c].requests + [r])];
      Record(Ask(c, r));
    }

    /** A line that is not a frame to send. */
    ghost method Refuse(c: nat)
      requires Valid() && c < |clients| && |clients[c].decided| < |clients[c].requests|
      requires clients[c].requests[|clients[c].decided|].Garbled?
      modifies this`clients, this`states, this`acts
      ensures Valid() && acts == old(acts) + [Reject(c)] && |clients| == |old(clients)|
      ensures clients[c].replies == old(clients[c].replies) && clients[c].decided == old(clients[c].decided) + [false]
    {
      hide IsRun;
      clients := clients[c := clients[c].(decided := clients[c].decided + [false])];
      Record(Reject(c));
    }

    ghost method WriteLine(c: nat, ok: bool)
      requires Valid() && c < |clients| && clients[c].decided == clients[c].replies + [ok]
      modifies this`clients, this`states, this`acts
      ensures Valid() && acts == old(acts) + [Reply(c)]
    {
      hide IsRun;
      clients := clients[c := clients[c].(replies := clients[c].replies + [ok])];
      Record(Reply(c));
    }

    /** `put` on the bounded queue: true exactly if there was room. */
    method Send(ghost c: nat, frame: Frame) returns (ok: bool)
      requires Valid() && c < |clients| && |clients[c].decided| < |clients[c].requests|
      requires clients[c].requests[|clients[c].decided|] == TxDaemon.Request.Send(frame)
      modifies this
      ensures Valid() && acts == old(acts) + [if ok then Accept(c) else Reject(c)]
      ensures ok <==> maxTxQueueSize <= 0 || |old(txQueue)| < maxTxQueueSize
      ensures txQueue == if ok then old(txQueue) + [frame] else old(txQueue)
      ensures |clients| == |old(clients)| && clients[c].requests == old(clients[c].requests)
      ensures clients[c].replies == old(clients[c].replies) && clients[c].decided == old(clients[c].decided) + [ok]
    {
      ok := !(maxTxQueueSize > 0 && |txQueue| >= maxTxQueueSize);
      ghost var item := Item(c, |clients[c].decided|, frame);
      clients := clients[c := clients[c].(decided := clients[c].decided + [ok])];
      if ok {
        txQueue := txQueue + [frame];
        items, accepted := items + [item], accepted + [item];
      }
      Record(if ok then Accept(c) else Reject(c));
    }

    /** Starting a started daemon does nothing. */
    method Launch()
      requires Valid()
      modifies this
      ensures Valid() && started && txQueue == old(txQueue)
      ensures acts == if old(started) then old(acts) else old(acts) + [Start]
    {
      if started {
        return;
      }
      started, stopEvent, sender := true, false, Checking;
      Record(Start);
    }

    /** Stop request, the sender's way out from wherever it stands, join. Only a sender that was
        already waiting for a frame still takes one. */
    method Stop()
      requires Valid()
      modifies this
      ensures Valid() && !started
      ensures txQueue == if old(started && sender == Getting && txQueue != []) then old(txQueue)[1..] else old(txQueue)
    {
      if !started {
        return;
      }
      RequestStop();
      if sender == Getting {
        var last := TakeFrame();
      } else if sender == Sending {
        EndSend();
      }
      if sender == Checking {
        Look();
      }
      Join();
    }

    method RequestStop()
      requires Valid() && started
      modifies this`stopEvent, this`states, this`acts
      ensures Valid() && stopEvent && sender != NoThread
    {
      StartedHasThread(states, acts);
      hide IsRun;
      stopEvent := true;
      Record(SetStop);
    }

    method EndSend()
      requires Valid() && sender == Sending
      modifies this`sender, this`states, this`acts
      ensures Valid() && sender == Checking && acts == old(acts) + [Sent]
    {
      hide IsRun;
      sender := Checking;
      Record(Sent);
    }

    method Join()
      requires Valid() && started && stopEvent && sender == Exited
      modifies this`started, this`sender, this`states, this`acts
      ensures Valid() && !started
    {
      hide IsRun;
      started, sender := false, NoThread;
      Record(Joined);
    }

    /** One turn of the sender's loop: at most the oldest frame leaves the queue. */
    method TxLoopOnce() returns (frame: Option<Frame>)
      requires Valid() && sender == Checking
      modifies this
      ensures Valid()
      ensures frame == if old(stopEvent) || old(txQueue) == [] then None else Some(old(txQueue)[0])
      ensures txQueue == if frame.Some? then old(txQueue)[1..] else old(txQueue)
      ensures |taken| == |old(taken)| + if frame.Some? then 1 else 0
      ensures sender == if old(stopEvent) then Exited else Checking
    {
      Look();
      if sender == Exited {
        return None;
      }
      frame := TakeFrame();
    }

    method Look()
      requires Valid() && sender == Checking
      modifies this`sender, this`states, this`acts
      ensures Valid() && acts == old(acts) + [CheckStop]
      ensures sender == if stopEvent then Exited else Getting
    {
      hide IsRun;
      sender := if stopEvent then Exited else Getting;
      Record(CheckStop);
    }

    method TakeFrame() returns (frame: Option<Frame>)
      requires Valid() && sender == Getting
      modifies this`sender, this`txQueue, this`items, this`taken, this`states, this`acts
      ensures Valid() && sender == Checking
      ensures frame == if old(txQueue) == [] then None else Some(old(txQueue)[0])
      ensures txQueue == if frame.Some? then old(txQueue)[1..] else []
      ensures |taken| == |old(taken)| + if frame.Some? then 1 else 0
      ensures acts == old(acts) + if frame.Some? then [Take, Sent] else [QueueEmpty]
    {
      if txQueue == [] {
        hide IsRun;
        sender := Checking;
        Record(QueueEmpty);
        return None;
      }
      hide Valid;
      frame := Some(txQueue[0]);
      PopFrame();
      EndSend();
    }

    method PopFrame()
      requires Valid() && sender == Getting && txQueue != []
      modifies this`sender, this`txQueue, this`items, this`taken, this`states, this`acts
      ensures Valid() && sender == Sending && txQueue == old(txQueue)[1..]
      ensures |taken| == |old(taken)| + 1 && acts == old(acts) + [Take]
    {
      hide IsRun;
      txQueue := txQueue[1..];
      taken, items, sender := taken + [items[0]], items[1..], Sending;
      Record(Take);
    }
  }

  lemma StartedHasThread<Frame>(states: seq<State<Frame>>, acts: seq<Action<Frame>>)
    requires IsRun(states, acts)
    ensures states[|acts|].started <==> states[|acts|].sender != NoThread
  {
    RunInv(states, acts, |acts|);
  }

  lemma StaysInStep<Frame>(states: seq<State<Frame>>, acts: seq<Action<Frame>>, c: nat)
    requires IsRun(states, acts) && c < |states[|acts|].clients|
    ensures InStep(states[|acts|].clients[c])
  {
    RunInv(states, acts, |acts|);
  }

  lemma ExtendRun<Frame>(states: seq<State<Frame>>, acts: seq<Action<Frame>>, a: Action<Frame>, s': State<Frame>)
    requires IsRun(states, acts) && IsStep(states[|acts|], a, s')
    ensures IsRun(states + [s'], acts + [a])
  {
    var states', acts' := states + [s'], acts + [a];
    forall n | 0 <= n < |acts'|
      ensures IsStep(states'[n], acts'[n], states'[n + 1])
    {
      if n < |acts| {
        assert IsStep(states[n], acts[n], states[n + 1]);
      }
    }
  }
}
