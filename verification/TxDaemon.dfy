/** The CAN daemon process: client threads that hand frames to a bounded queue and answer, one
    sender thread that takes frames from it, and start and stop of that thread. Every action is
    one atomic step; any interleaving is a run. `accepted` and `taken` record the past. */
module TxDaemon {

  /** The `k`-th request of client `c`, as it sits in the queue. */
  datatype Item<Frame> = Item(c: nat, k: nat, frame: Frame)

  /** A request line: a frame to send, or something that is not one. */
  datatype Request<Frame> = Send(frame: Frame) | Garbled

  /** `decided`: what the handler's `put` returned, request by request. */
  datatype Client<Frame> = Client(requests: seq<Request<Frame>>, decided: seq<bool>, replies: seq<bool>)

  datatype Sender = NoThread | Checking | Getting | Sending | Exited

  datatype State<Frame> = State(
    capacity: int,
    queue: seq<Item<Frame>>,
    started: bool,
    stopEvent: bool,
    sender: Sender,
    clients: seq<Client<Frame>>,
    accepted: seq<Item<Frame>>,
    taken: seq<Item<Frame>>)

  datatype Action<Frame> =
    | Ask(c: nat, r: Request<Frame>)
    | Accept(c: nat)
    | Reject(c: nat)
    | Reply(c: nat)
    | Start
    | SetStop
    | Joined
    | CheckStop
    | Take
    | QueueEmpty
    | Sent

  /** A capacity of zero or less means an unbounded queue. */
  predicate Full<Frame>(s: State<Frame>) {
    s.capacity > 0 && |s.queue| >= s.capacity
  }

  predicate Enabled<Frame>(s: State<Frame>, a: Action<Frame>) {
    match a
    // The client's lock is held until the answer to the last request has been read.
    case Ask(c, r) => c < |s.clients| && |s.clients[c].requests| == |s.clients[c].replies|
    case Accept(c) =>
      && c < |s.clients| && |s.clients[c].decided| < |s.clients[c].requests|
      && s.clients[c].requests[|s.clients[c].decided|].Send? && !Full(s)
    // `queue.Full` is raised only while the queue is full, also after a blocking wait.
    case Reject(c) =>
      && c < |s.clients| && |s.clients[c].decided| < |s.clients[c].requests|
      && (s.clients[c].requests[|s.clients[c].decided|].Garbled? || Full(s))
    case Reply(c) => c < |s.clients| && |s.clients[c].replies| < |s.clients[c].decided|
    case Start => !s.started
    case SetStop => s.started
    case Joined => s.started && s.stopEvent && s.sender.Exited?
    case CheckStop => s.sender.Checking?
    case Take => s.sender.Getting? && s.queue != []
    case QueueEmpty => s.sender.Getting? && s.queue == []
    // The frame went out or its sending raised; the loop goes on either way.
    case Sent => s.sender.Sending?
  }

  function Apply<Frame>(s: State<Frame>, a: Action<Frame>): State<Frame>
    requires Enabled(s, a)
  {
    match a
    case Ask(c, r) =>
      s.(clients := s.clients[c := s.clients[c].(requests := s.clients[c].requests + [r])])
    case Accept(c) =>
      var k := |s.clients[c].decided|;
      var item := Item(c, k, s.clients[c].requests[k].frame);
      s.(queue := s.queue + [item], accepted := s.accepted + [item],
         clients := s.clients[c := s.clients[c].(decided := s.clients[c].decided + [true])])
    case Reject(c) =>
      s.(clients := s.clients[c := s.clients[c].(decided := s.clients[c].decided + [false])])
    case Reply(c) =>
      var answer := s.clients[c].decided[|s.clients[c].replies|];
      s.(clients := s.clients[c := s.clients[c].(replies := s.clients[c].replies + [answer])])
    case Start => s.(started := true, stopEvent := false, sender := Checking)
    case SetStop => s.(stopEvent := true)
    case Joined => s.(started := false, sender := NoThread)
    case CheckStop => s.(sender := if s.stopEvent then Exited else Getting)
    case Take => s.(queue := s.queue[1..], taken := s.taken + [s.queue[0]], sender := Sending)
    case QueueEmpty => s.(sender := Checking)
    case Sent => s.(sender := Checking)
  }

  ghost predicate Initial<Frame>(s: State<Frame>) {
    && s.queue == [] && !s.started && !s.stopEvent && s.sender == NoThread
    && s.accepted == [] && s.taken == []
    && forall c :: 0 <= c < |s.clients| ==> s.clients[c] == Client([], [], [])
  }

  ghost predicate IsRun<Frame>(states: seq<State<Frame>>, acts: seq<Action<Frame>>) {
    && |states| == |acts| + 1 && Initial(states[0])
    && forall n :: 0 <= n < |acts| ==> IsStep(states[n], acts[n], states[n + 1])
  }

  ghost predicate IsStep<Frame>(s: State<Frame>, a: Action<Frame>, s': State<Frame>) {
    Enabled(s, a) && s' == Apply(s, a)
  }

  // ---------------------------------------------------------------------------
  // The invariant
  // ---------------------------------------------------------------------------

  /** At most one request is unanswered, and the answers are the decisions, in order. */
  ghost predicate InStep<Frame>(cl: Client<Frame>) {
    && cl.replies <= cl.decided
    && |cl.decided| <= |cl.requests| <= |cl.replies| + 1
  }

  /** Accepted are exactly the requests with a positive decision, each once, in request order. */
  ghost predicate Ledger<Frame>(accepted: seq<Item<Frame>>, clients: seq<Client<Frame>>) {
    && (forall i :: 0 <= i < |accepted| ==> IsAccepted(clients, accepted[i]))
    && (forall c, k :: 0 <= c < |clients| && 0 <= k < |clients[c].decided| && clients[c].decided[k] ==>
          HasItem(accepted, c, k))
    && (forall i, j :: 0 <= i < j < |accepted| && accepted[i].c == accepted[j].c ==> accepted[i].k < accepted[j].k)
  }

  ghost predicate IsAccepted<Frame>(clients: seq<Client<Frame>>, item: Item<Frame>) {
    && item.c < |clients| && item.k < |clients[item.c].decided| && item.k < |clients[item.c].requests|
    && clients[item.c].decided[item.k]
    && clients[item.c].requests[item.k] == Send(item.frame)
  }

  ghost predicate HasItem<Frame>(accepted: seq<Item<Frame>>, c: nat, k: nat) {
    exists i :: 0 <= i < |accepted| && accepted[i].c == c && accepted[i].k == k
  }

  ghost predicate Inv<Frame>(s: State<Frame>) {
    && s.accepted == s.taken + s.queue
    && (s.capacity > 0 ==> |s.queue| <= s.capacity)
    && (s.started <==> !s.sender.NoThread?)
    && (forall c :: 0 <= c < |s.clients| ==> InStep(s.clients[c]))
    && Ledger(s.accepted, s.clients)
  }

  /** A positive decision comes with its item. */
  lemma LedgerGrows<Frame>(accepted: seq<Item<Frame>>, clients: seq<Client<Frame>>, c: nat, f: Frame)
    requires Ledger(accepted, clients) && c < |clients|
    requires |clients[c].decided| < |clients[c].requests|
    requires clients[c].requests[|clients[c].decided|] == Send(f)
    ensures Ledger(accepted + [Item(c, |clients[c].decided|, f)],
                   clients[c := clients[c].(decided := clients[c].decided + [true])])
  {
    var item := Item(c, |clients[c].decided|, f);
    var accepted' := accepted + [item];
    var clients' := clients[c := clients[c].(decided := clients[c].decided + [true])];
    forall i | 0 <= i < |accepted'|
      ensures IsAccepted(clients', accepted'[i])
    {
      assert i < |accepted| ==> IsAccepted(clients, accepted[i]);
    }
    forall c', k | 0 <= c' < |clients'| && 0 <= k < |clients'[c'].decided| && clients'[c'].decided[k]
      ensures HasItem(accepted', c', k)
    {
      if c' == c && k == item.k {
        assert accepted'[|accepted|] == item;
      } else {
        assert clients[c'].decided[k] && HasItem(accepted, c', k);
        var i :| 0 <= i < |accepted| && accepted[i].c == c' && accepted[i].k == k;
        assert accepted'[i] == accepted[i];
      }
    }
    forall i, j | 0 <= i < j < |accepted'| && accepted'[i].c == accepted'[j].c
      ensures accepted'[i].k < accepted'[j].k
    {
      assert IsAccepted(clients, accepted[i]);
    }
  }

  /** New requests, negative decisions and replies leave it as it is. */
  lemma LedgerStays<Frame>(accepted: seq<Item<Frame>>, clients: seq<Client<Frame>>, c: nat, cl: Client<Frame>)
    requires Ledger(accepted, clients) && c < |clients|
    requires clients[c].requests <= cl.requests && clients[c].decided <= cl.decided
    requires forall k :: |clients[c].decided| <= k < |cl.decided| ==> !cl.decided[k]
    ensures Ledger(accepted, clients[c := cl])
  {
  }

  lemma StepKeepsLedger<Frame>(s: State<Frame>, a: Action<Frame>, s': State<Frame>)
    requires Inv(s) && IsStep(s, a, s')
    ensures Ledger(s'.accepted, s'.clients)
  {
    hide Ledger, InStep;
    match a
    case Ask(c, r) => LedgerStays(s.accepted, s.clients, c, s'.clients[c]);
    case Accept(c) => LedgerGrows(s.accepted, s.clients, c, s.clients[c].requests[|s.clients[c].decided|].frame);
    case Reject(c) => LedgerStays(s.accepted, s.clients, c, s'.clients[c]);
    case Reply(c) => LedgerStays(s.accepted, s.clients, c, s'.clients[c]);
    case _ =>
  }

  lemma StepKeepsInv<Frame>(s: State<Frame>, a: Action<Frame>, s': State<Frame>)
    requires Inv(s) && IsStep(s, a, s')
    ensures Inv(s') && s'.capacity == s.capacity
    ensures s.taken <= s'.taken && s.accepted <= s'.accepted && |s'.clients| == |s.clients|
  {
    hide Ledger, InStep;
    StepKeepsLedger(s, a, s');
    ClientsStayInStep(s, a, s');
    if a.Take? {
      assert s.queue == [s.queue[0]] + s.queue[1..];
    }
  }

  lemma ClientsStayInStep<Frame>(s: State<Frame>, a: Action<Frame>, s': State<Frame>)
    requires Inv(s) && IsStep(s, a, s')
    ensures forall c :: 0 <= c < |s'.clients| ==> InStep(s'.clients[c])
  {
  }

  lemma {:induction false} RunInv<Frame>(states: seq<State<Frame>>, acts: seq<Action<Frame>>, n: nat)
    requires IsRun(states, acts) && n < |states|
    ensures Inv(states[n]) && states[n].capacity == states[0].capacity
  {
    if n > 0 {
      RunInv(states, acts, n - 1);
      assert IsStep(states[n - 1], acts[n - 1], states[n]);
      StepKeepsInv(states[n - 1], acts[n - 1], states[n]);
    }
  }

  /** The queued item made from this request. */
  ghost predicate IsFor<Frame>(item: Item<Frame>, c: nat, k: nat, r: Request<Frame>) {
    item.c == c && item.k == k && r == Send(item.frame)
  }

  // ---------------------------------------------------------------------------
  // Main results
  // ---------------------------------------------------------------------------

  /** In every interleaving the accepted frames are the ones taken for sending followed by the
      ones still queued, in order, and a bounded queue stays within its capacity. */
  lemma NothingLostOrReordered<Frame>(states: seq<State<Frame>>, acts: seq<Action<Frame>>, n: nat)
    requires IsRun(states, acts) && n < |states|
    ensures states[n].accepted == states[n].taken + states[n].queue
    ensures states[0].capacity > 0 ==> |states[n].queue| <= states[0].capacity
  {
    RunInv(states, acts, n);
  }

  /** Room decides: the handler of an undecided request can always go on, by accepting it if it is a
      frame and the queue has room, and by rejecting it otherwise. */
  lemma DecidedByRoom<Frame>(states: seq<State<Frame>>, acts: seq<Action<Frame>>, n: nat, c: nat)
    requires IsRun(states, acts) && n < |states| && c < |states[n].clients|
    requires |states[n].clients[c].decided| < |states[n].clients[c].requests|
    ensures var s, cl := states[n], states[n].clients[c];
            var room := states[0].capacity <= 0 || |s.queue| < states[0].capacity;
            && (Enabled(s, Accept(c)) <==> cl.requests[|cl.decided|].Send? && room)
            && (Enabled(s, Reject(c)) <==> cl.requests[|cl.decided|].Garbled? || !room)
            && (!room ==> |s.queue| == states[0].capacity)
  {
    RunInv(states, acts, n);
  }

  /** A client's `k`-th answer belongs to its `k`-th request: it is positive exactly if that very
      request was accepted, and a request answered negatively is never taken for sending. */
  lemma AnswersMatchRequests<Frame>(
    states: seq<State<Frame>>, acts: seq<Action<Frame>>, n: nat, c: nat, k: nat)
    requires IsRun(states, acts) && n < |states|
    requires c < |states[n].clients| && k < |states[n].clients[c].replies|
    ensures var s := states[n];
            && k < |s.clients[c].requests|
            && (s.clients[c].replies[k] <==> HasItem(s.accepted, c, k))
            && (s.clients[c].replies[k] ==>
                  (exists i :: 0 <= i < |s.accepted| && IsFor(s.accepted[i], c, k, s.clients[c].requests[k])))
            && (!s.clients[c].replies[k] ==>
                  forall i :: 0 <= i < |s.taken| ==> !(s.taken[i].c == c && s.taken[i].k == k))
  {
    RunInv(states, acts, n);
    var s := states[n];
    assert InStep(s.clients[c]);
    assert s.clients[c].replies[k] == s.clients[c].decided[k];
    if HasItem(s.accepted, c, k) {
      var i :| 0 <= i < |s.accepted| && s.accepted[i].c == c && s.accepted[i].k == k;
      assert IsAccepted(s.clients, s.accepted[i]);
      assert IsFor(s.accepted[i], c, k, s.clients[c].requests[k]);
    }
    forall i | 0 <= i < |s.taken|
      ensures s.taken[i] == s.accepted[i]
    {
    }
    if !s.clients[c].replies[k] {
      forall i | 0 <= i < |s.taken|
        ensures !(s.taken[i].c == c && s.taken[i].k == k)
      {
        assert s.taken[i] == s.accepted[i];
        assert IsAccepted(s.clients, s.accepted[i]);
      }
    }
  }

  /** Frames of one client reach the bus in the order of its requests, and none twice. */
  lemma ClientOrderKept<Frame>(
    states: seq<State<Frame>>, acts: seq<Action<Frame>>, n: nat, i: nat, j: nat)
    requires IsRun(states, acts) && n < |states| && i < j < |states[n].taken|
    requires states[n].taken[i].c == states[n].taken[j].c
    ensures states[n].taken[i].k < states[n].taken[j].k
  {
    RunInv(states, acts, n);
    var s := states[n];
    assert s.taken[i] == s.accepted[i] && s.taken[j] == s.accepted[j];
  }

  /** After a stop request the sender takes at most one more frame, and that one only if it had
      already looked at the stop event; the rest stays queued for the next start. */
  lemma {:induction false} StopTakesAtMostOne<Frame>(
    states: seq<State<Frame>>, acts: seq<Action<Frame>>, m: nat, n: nat)
    requires IsRun(states, acts) && m < n < |states| && acts[m] == SetStop
    requires forall i :: m < i < n ==> acts[i] != Start
    ensures states[n].stopEvent
    ensures |states[n].taken| <= |states[m].taken| + if states[m].sender == Getting then 1 else 0
    ensures |states[n].taken| == |states[m].taken| + 1 ==> states[n].sender != Getting
    ensures states[m].sender != Getting ==> states[n].sender != Getting
    decreases n
  {
    assert IsStep(states[n - 1], acts[n - 1], states[n]);
    if n - 1 > m {
      StopTakesAtMostOne(states, acts, m, n - 1);
    }
  }
}
