/** The controller as a client of the CAN daemon: the frames its ticks count as sent are, in order,
    the ones the daemon has accepted from it. */
module SentFrames {
  import opened Wrappers
  import opened StateMachine
  import opened Controller
  import SpgProtocol
  import TxDaemon

  /** A request and what was decided about it. */
  datatype Asked<Frame> = Asked(request: TxDaemon.Request<Frame>, accepted: bool)

  /** The frames of the accepted ones, in order. */
  function AcceptedOf<Frame>(asked: seq<Asked<Frame>>): seq<Frame> {
    if asked == [] then []
    else
      var last := asked[|asked| - 1];
      AcceptedOf(asked[..|asked| - 1])
      + if last.accepted && last.request.Send? then [last.request.frame] else []
  }

  lemma OneMore<Frame>(asked: seq<Asked<Frame>>, last: Asked<Frame>)
    ensures AcceptedOf(asked + [last])
         == AcceptedOf(asked) + if last.accepted && last.request.Send? then [last.request.frame] else []
  {
    assert (asked + [last])[..|asked|] == asked;
  }

  lemma {:induction false} Concatenated<Frame>(a: seq<Asked<Frame>>, b: seq<Asked<Frame>>)
    ensures AcceptedOf(a + b) == AcceptedOf(a) + AcceptedOf(b)
    decreases |b|
  {
    if b == [] {
      assert a + b == a;
    } else {
      var init := b[..|b| - 1];
      Concatenated(a, init);
      assert (a + b)[..|a + b| - 1] == a + init;
    }
  }

  // ---------------------------------------------------------------------------
  // The daemon's side
  // ---------------------------------------------------------------------------

  /** The frames among these items that client `c` asked for, in order. */
  function OfClient<Frame>(items: seq<TxDaemon.Item<Frame>>, c: nat): seq<Frame> {
    if items == [] then []
    else
      var last := items[|items| - 1];
      OfClient(items[..|items| - 1], c) + if last.c == c then [last.frame] else []
  }

  lemma OneMoreItem<Frame>(items: seq<TxDaemon.Item<Frame>>, item: TxDaemon.Item<Frame>, c: nat)
    ensures OfClient(items + [item], c) == OfClient(items, c) + if item.c == c then [item.frame] else []
  {
    assert (items + [item])[..|items|] == items;
  }

  /** The decided ones among a client's requests. */
  function Decided<Frame>(requests: seq<TxDaemon.Request<Frame>>, decided: seq<bool>): seq<Asked<Frame>>
    requires |decided| <= |requests|
  {
    seq(|decided|, k requires 0 <= k < |decided| => Asked(requests[k], decided[k]))
  }

  lemma OneMoreRequest<Frame>(
    requests: seq<TxDaemon.Request<Frame>>, r: TxDaemon.Request<Frame>, decided: seq<bool>)
    requires |decided| <= |requests|
    ensures Decided(requests + [r], decided) == Decided(requests, decided)
  {
  }

  lemma OneMoreDecision<Frame>(requests: seq<TxDaemon.Request<Frame>>, decided: seq<bool>, d: bool)
    requires |decided| < |requests|
    ensures AcceptedOf(Decided(requests, decided + [d]))
         == AcceptedOf(Decided(requests, decided))
            + if d && requests[|decided|].Send? then [requests[|decided|].frame] else []
  {
    assert Decided(requests, decided + [d]) == Decided(requests, decided) + [Asked(requests[|decided|], d)];
    hide AcceptedOf, Decided;
    OneMore(Decided(requests, decided), Asked(requests[|decided|], d));
  }

  ghost predicate Matches<Frame>(accepted: seq<TxDaemon.Item<Frame>>, c: nat, cl: TxDaemon.Client<Frame>) {
    && |cl.decided| <= |cl.requests|
    && OfClient(accepted, c) == AcceptedOf(Decided(cl.requests, cl.decided))
  }

  lemma StepKeepsMatch<Frame>(
    s: TxDaemon.State<Frame>, a: TxDaemon.Action<Frame>, s': TxDaemon.State<Frame>, c: nat)
    requires c < |s.clients| && Matches(s.accepted, c, s.clients[c]) && TxDaemon.IsStep(s, a, s')
    ensures c < |s'.clients| && Matches(s'.accepted, c, s'.clients[c])
  {
    hide AcceptedOf, OfClient, Decided;
    var cl := s.clients[c];
    match a
    case Ask(d, r) => OneMoreRequest(cl.requests, r, cl.decided);
    case Accept(d) =>
      OneMoreItem(s.accepted, s'.accepted[|s.accepted|], c);
      if d == c {
        OneMoreDecision(cl.requests, cl.decided, true);
      }
    case Reject(d) =>
      if d == c {
        OneMoreDecision(cl.requests, cl.decided, false);
      }
    case _ =>
  }

  /** In every interleaving and for every client: what the daemon has accepted from it are the
      frames of its positively decided requests, each once and in order. */
  lemma {:induction false} AcceptedInOrder<Frame>(
    states: seq<TxDaemon.State<Frame>>, acts: seq<TxDaemon.Action<Frame>>, n: nat, c: nat)
    requires TxDaemon.IsRun(states, acts) && n < |states| && c < |states[0].clients|
    ensures c < |states[n].clients| && Matches(states[n].accepted, c, states[n].clients[c])
  {
    if n > 0 {
      AcceptedInOrder(states, acts, n - 1, c);
      assert TxDaemon.IsStep(states[n - 1], acts[n - 1], states[n]);
      hide TxDaemon.IsRun, TxDaemon.IsStep, Matches;
      StepKeepsMatch(states[n - 1], acts[n - 1], states[n], c);
    }
  }

  // ---------------------------------------------------------------------------
  // The controller's side
  // ---------------------------------------------------------------------------

  /** What a sending loop asks of the daemon and hears: all frames that go out and a refused one. */
  function Attempts(jobs: seq<Job>, bus: Bus): seq<Asked<CanFrame>> {
    if jobs == [] then []
    else
      var init, last := jobs[..|jobs| - 1], jobs[|jobs| - 1];
      Attempts(init, bus)
      + if FirstError(init, bus).None? && last.Fine()
        then [Asked(TxDaemon.Request.Send(last.Frame()), bus(|jobs| - 1))] else []
  }

  /** The accepted attempts of a loop are the frames it counts as sent. */
  lemma {:induction false} LoopSendsAccepted(jobs: seq<Job>, bus: Bus)
    ensures AcceptedOf(Attempts(jobs, bus)) == SentBy(jobs, bus)
  {
    if jobs != [] {
      var init, last := jobs[..|jobs| - 1], jobs[|jobs| - 1];
      LoopSendsAccepted(init, bus);
      hide AcceptedOf;
      if FirstError(init, bus).None? && last.Fine() {
        OneMore(Attempts(init, bus), Asked(TxDaemon.Request.Send(last.Frame()), bus(|jobs| - 1)));
      } else {
        assert Attempts(jobs, bus) == Attempts(init, bus);
      }
    }
  }

  /** The frames a tick sets out to send. */
  function JobsOf(cfg: Config, s: State, input: Input): seq<Job> {
    match Updated(cfg, s, input).mode
    case ESTOP => CommandJobs(cfg.ids, SpgProtocol.CMD_MIT_EXIT)
    case DISABLED => CommandJobs(cfg.ids, SpgProtocol.CMD_MIT_EXIT)
    case ENABLING => CommandJobs(cfg.ids, SpgProtocol.CMD_MIT_ENTER)
    case ZERO_SETTING =>
      (match ZeroOffsets(input.op)
       case Err(e) => []
       case Ok(offsets) => ZeroJobs(cfg, offsets, ZeroOrder(cfg, offsets)))
    case DAMPING => MitJobs(cfg, DampingTargets(cfg))
    case NORMAL => MitJobs(cfg, PolicyTargets(cfg, input.cmd))
  }

  lemma TickSendsJobs(cfg: Config, s: State, input: Input)
    ensures Step(cfg, s, input).frames == SentBy(JobsOf(cfg, s, input), input.bus)
  {
    NothingSent(input.bus);
    hide SentBy, FirstError, CommandJobs, ZeroJobs, MitJobs, ZeroOffsets, Updated;
  }

  lemma NothingSent(bus: Bus)
    ensures SentBy([], bus) == []
  {
  }

  function TickAttempts(cfg: Config, s: State, input: Input): seq<Asked<CanFrame>> {
    Attempts(JobsOf(cfg, s, input), input.bus)
  }

  lemma TickSendsAccepted(cfg: Config, s: State, input: Input)
    ensures AcceptedOf(TickAttempts(cfg, s, input)) == Step(cfg, s, input).frames
  {
    hide AcceptedOf, Attempts, SentBy, JobsOf, Step;
    LoopSendsAccepted(JobsOf(cfg, s, input), input.bus);
    TickSendsJobs(cfg, s, input);
  }

  function Flat<T>(lists: seq<seq<T>>): seq<T> {
    if lists == [] then [] else Flat(lists[..|lists| - 1]) + lists[|lists| - 1]
  }

  /** Whatever the lists are, accepting one by one is accepting all. */
  lemma {:induction false} FlatAccepted<Frame>(lists: seq<seq<Asked<Frame>>>, frames: seq<seq<Frame>>)
    requires |lists| == |frames| && forall k :: 0 <= k < |lists| ==> AcceptedOf(lists[k]) == frames[k]
    ensures AcceptedOf(Flat(lists)) == Flat(frames)
  {
    if lists != [] {
      var n := |lists| - 1;
      FlatAccepted(lists[..n], frames[..n]);
      hide AcceptedOf;
      Concatenated(Flat(lists[..n]), lists[n]);
    }
  }

  /** Attempts and sent frames of all ticks. */
  function AllAttempts(cfg: Config, states: seq<State>, inputs: seq<Input>): seq<Asked<CanFrame>>
    requires |inputs| <= |states|
  {
    Flat(seq(|inputs|, k requires 0 <= k < |inputs| => TickAttempts(cfg, states[k], inputs[k])))
  }

  function AllSentFrames(cfg: Config, states: seq<State>, inputs: seq<Input>): seq<CanFrame>
    requires |inputs| <= |states|
  {
    Flat(seq(|inputs|, k requires 0 <= k < |inputs| => Step(cfg, states[k], inputs[k]).frames))
  }

  lemma TicksSendAccepted(cfg: Config, states: seq<State>, inputs: seq<Input>)
    requires |inputs| <= |states|
    ensures AcceptedOf(AllAttempts(cfg, states, inputs)) == AllSentFrames(cfg, states, inputs)
  {
    hide AcceptedOf, Step, TickAttempts, Flat;
    var lists := seq(|inputs|, k requires 0 <= k < |inputs| => TickAttempts(cfg, states[k], inputs[k]));
    var frames := seq(|inputs|, k requires 0 <= k < |inputs| => Step(cfg, states[k], inputs[k]).frames);
    forall k | 0 <= k < |inputs|
      ensures AcceptedOf(lists[k]) == frames[k]
    {
      TickSendsAccepted(cfg, states[k], inputs[k]);
    }
    FlatAccepted(lists, frames);
  }

  /** The two together: if client `c` of the daemon is a controller with this past, so that its
      decided requests are what the ticks asked for and were told, then the frames accepted from
      it, taken or still queued, are exactly those the ticks counted as sent. */
  lemma SentIsAccepted(
    cfg: Config, states: seq<State>, inputs: seq<Input>,
    daemon: seq<TxDaemon.State<CanFrame>>, acts: seq<TxDaemon.Action<CanFrame>>, m: nat, c: nat)
    requires Controller.IsRun(cfg, states, inputs)
    requires TxDaemon.IsRun(daemon, acts) && m < |daemon| && c < |daemon[0].clients| && c < |daemon[m].clients|
    requires var cl := daemon[m].clients[c];
             |cl.decided| <= |cl.requests| && Decided(cl.requests, cl.decided) == AllAttempts(cfg, states, inputs)
    ensures OfClient(daemon[m].taken + daemon[m].queue, c) == AllSentFrames(cfg, states, inputs)
  {
    AcceptedInOrder(daemon, acts, m, c);
    TxDaemon.NothingLostOrReordered(daemon, acts, m);
    TicksSendAccepted(cfg, states, inputs);
    hide OfClient, AcceptedOf, AllAttempts, AllSentFrames, Decided, TxDaemon.IsRun, Controller.IsRun;
  }
}
