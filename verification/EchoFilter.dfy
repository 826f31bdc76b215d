/** The transport's memory of its own recent frames, by which it drops their echoes. */
module EchoFilter {

  const CAN_SFF_MASK: int := 0x7FF
  const WINDOW: real := 0.25
  const MAX_REMEMBERED: nat := 512

  datatype Entry = Entry(t: real, canId: int, data: seq<int>)

  /** One of the last 512 sends, at most 0.25 s old, with this id and this data. */
  ghost predicate SentRecently(history: seq<Entry>, now: real, canId: int, data: seq<int>) {
    exists i :: |history| - MAX_REMEMBERED <= i < |history| && 0 <= i && IsEcho(history[i], now, canId, data)
  }

  predicate IsEcho(e: Entry, now: real, canId: int, data: seq<int>) {
    now - e.t <= WINDOW && e.canId == canId && e.data == data
  }

  lemma SentRecentlyIs(history: seq<Entry>, now: real, canId: int, data: seq<int>)
    ensures SentRecently(history, now, canId, data) <==>
            exists i :: 0 <= i < |history| && |history| <= i + 512 && now - history[i].t <= 0.25
                     && history[i].canId == canId && history[i].data == data
  {
  }

  /** `recent` are the newest of the history, in time order up to `clock`, and everything that
      was dropped from it is too far back or too old. */
  ghost predicate Remembers(recent: seq<Entry>, history: seq<Entry>, clock: real) {
    && |recent| <= MAX_REMEMBERED && |recent| <= |history|
    && recent == history[|history| - |recent|..]
    && (forall i, j :: 0 <= i <= j < |history| ==> history[i].t <= history[j].t)
    && (history != [] ==> history[|history| - 1].t <= clock)
    && forall i :: 0 <= i < |history| - |recent| ==>
         i < |history| - MAX_REMEMBERED || clock - history[i].t > WINDOW
  }

  lemma Advance(recent: seq<Entry>, history: seq<Entry>, clock: real, now: real)
    requires Remembers(recent, history, clock) && clock <= now
    ensures Remembers(recent, history, now)
  {
  }

  lemma Remember(recent: seq<Entry>, history: seq<Entry>, e: Entry)
    requires Remembers(recent, history, e.t)
    ensures var kept := if |recent| == MAX_REMEMBERED then recent[1..] else recent;
            Remembers(kept + [e], history + [e], e.t)
  {
  }

  lemma Forget(recent: seq<Entry>, history: seq<Entry>, clock: real)
    requires Remembers(recent, history, clock) && recent != [] && clock - recent[0].t > WINDOW
    ensures Remembers(recent[1..], history, clock)
  {
  }

  /** Once the front is young enough, the deque holds exactly the sends that count. */
  lemma DequeDecides(recent: seq<Entry>, history: seq<Entry>, now: real, canId: int, data: seq<int>)
    requires Remembers(recent, history, now) && (recent == [] || now - recent[0].t <= WINDOW)
    ensures SentRecently(history, now, canId, data) <==>
            exists k :: 0 <= k < |recent| && recent[k].canId == canId && recent[k].data == data
  {
  }

  class ProcessTransport {
    /** The bounded deque, oldest first. */
    var recent: seq<Entry>

    /** Every frame ever remembered, and the last clock reading. */
    ghost var history: seq<Entry>
    ghost var clock: real

    ghost predicate Valid()
      reads this
    {
      Remembers(recent, history, clock)
    }

    constructor (now: real)
      ensures Valid() && history == [] && clock == now
    {
      recent := [];
      history := [];
      clock := now;
    }

    /** `delivered`: the daemon accepted the frame. Only such a frame is remembered. */
    method SendFrame(now: real, canId: int, data: seq<int>, delivered: bool) returns (ok: bool)
      requires Valid() && now >= clock
      modifies this
      ensures Valid() && clock == now
      ensures ok == (0 <= canId <= CAN_SFF_MASK && delivered)
      ensures history == if ok then old(history) + [Entry(now, canId, data)] else old(history)
    {
      Advance(recent, history, clock, now);
      clock := now;
      if canId < 0 || canId > CAN_SFF_MASK || !delivered {
        return false;
      }
      RememberTxFrame(now, canId, data);
      return true;
    }

    method RememberTxFrame(now: real, canId: int, data: seq<int>)
      requires Valid() && now == clock
      modifies this`recent, this`history
      ensures Valid() && history == old(history) + [Entry(now, canId, data)]
    {
      hide Remembers;
      var e := Entry(now, canId, data);
      Remember(recent, history, e);
      if |recent| == MAX_REMEMBERED {
        recent := recent[1..];
      }
      recent := recent + [e];
      history := history + [e];
    }

    /** However often it was asked before, the answer is the one the full history gives. */
    method IsRecentTxEcho(now: real, canId: int, data: seq<int>) returns (echo: bool)
      requires Valid() && now >= clock
      modifies this`recent, this`clock
      ensures Valid() && clock == now
      ensures echo <==> SentRecently(history, now, canId, data)
      ensures echo <==> exists i :: 0 <= i < |history| && |history| <= i + 512 && now - history[i].t <= 0.25
                                 && history[i].canId == canId && history[i].data == data
    {
      SentRecentlyIs(history, now, canId, data);
      hide Remembers, SentRecently;
      Advance(recent, history, clock, now);
      clock := now;
      while recent != [] && now - recent[0].t > WINDOW
        invariant Valid() && clock == now
        decreases |recent|
      {
        Forget(recent, history, clock);
        recent := recent[1..];
      }
      DequeDecides(recent, history, now, canId, data);
      for k := 0 to |recent|
        invariant forall m :: 0 <= m < k ==> !(recent[m].canId == canId && recent[m].data == data)
      {
        if recent[k].canId == canId && recent[k].data == data {
          return true;
        }
      }
      return false;
    }
  }
}
