/** The dashboard's sliding window over bus traffic. */
module BusLoad {

  datatype Direction = Rx | Tx | Other

  datatype Event = Event(t: real, bits: nat, direction: Direction)

  /** Frames and bits of one direction that are not older than the cutoff. */
  function Frames(events: seq<Event>, cutoff: real, d: Direction): nat {
    if events == [] then 0
    else
      var e := events[|events| - 1];
      Frames(events[..|events| - 1], cutoff, d) + if e.t >= cutoff && e.direction == d then 1 else 0
  }

  function Bits(events: seq<Event>, cutoff: real, d: Direction): nat {
    if events == [] then 0
    else
      var e := events[|events| - 1];
      Bits(events[..|events| - 1], cutoff, d) + if e.t >= cutoff && e.direction == d then e.bits else 0
  }

  /** Wherever it stands, an event counts once, with its bits, if it is not older than the cutoff and
      of this direction. */
  lemma {:induction false} EventCounts(a: seq<Event>, e: Event, b: seq<Event>, cutoff: real, d: Direction)
    ensures Frames(a + [e] + b, cutoff, d)
         == Frames(a + b, cutoff, d) + if e.t >= cutoff && e.direction == d then 1 else 0
    ensures Bits(a + [e] + b, cutoff, d)
         == Bits(a + b, cutoff, d) + if e.t >= cutoff && e.direction == d then e.bits else 0
    ensures Frames([], cutoff, d) == Bits([], cutoff, d) == 0
    decreases |b|
  {
    if b == [] {
      assert a + [e] + b == a + [e] && a + b == a && (a + [e])[..|a|] == a;
    } else {
      var init := b[..|b| - 1];
      EventCounts(a, e, init, cutoff, d);
      assert (a + [e] + b)[..|a| + |b|] == a + [e] + init && (a + b)[..|a + b| - 1] == a + init;
    }
  }

  /** Events before the cutoff contribute nothing. */
  lemma {:induction false} DropOld(events: seq<Event>, n: nat, cutoff: real, d: Direction)
    requires n <= |events| && forall i :: 0 <= i < n ==> events[i].t < cutoff
    ensures Frames(events, cutoff, d) == Frames(events[n..], cutoff, d)
    ensures Bits(events, cutoff, d) == Bits(events[n..], cutoff, d)
  {
    if n < |events| {
      var init := events[..|events| - 1];
      DropOld(init, n, cutoff, d);
      assert events[n..][..|events| - n - 1] == init[n..];
    } else if n > 0 {
      DropOld(events[..n - 1], n - 1, cutoff, d);
      assert events[n..] == [] == events[..n - 1][n - 1..];
    } else {
      assert events[n..] == events;
    }
  }

  datatype Snapshot = Snapshot(
    rxFrames: nat, txFrames: nat, rxRate: real, txRate: real, rxBits: nat, txBits: nat, bps: real, loadPercent: real)

  /** What is divided by is at least a billionth. */
  function AtLeastNano(x: real): (r: real)
    ensures r > 0.0 && (x >= 0.000000001 ==> r == x)
  {
    if x < 0.000000001 then 0.000000001 else x
  }

  /** How many a second. */
  function Rate(count: nat, window: real): real {
    count as real / AtLeastNano(window)
  }

  /** Of the bits the bus could carry in the window, how many hundredths were used. */
  lemma LoadMeaning(bits: nat, window: real, bitrate: real)
    requires window >= 0.000000001 && bitrate >= 0.000000001
    ensures Rate(bits, window) / AtLeastNano(bitrate) * 100.0 * (bitrate * window) == 100.0 * bits as real
  {
    var rate := Rate(bits, window);
    assert rate * window == bits as real;
    var load := rate / bitrate;
    assert load * bitrate == rate;
    assert load * (bitrate * window) == load * bitrate * window;
  }

  /** `events` are the newest of the history, in time order up to `clock`, and everything that
      was dropped from it is older than the window. */
  ghost predicate Windowed(events: seq<Event>, history: seq<Event>, clock: real, window: real) {
    && |events| <= |history| && events == history[|history| - |events|..]
    && (forall i, j :: 0 <= i <= j < |history| ==> history[i].t <= history[j].t)
    && (history != [] ==> history[|history| - 1].t <= clock)
    && forall i :: 0 <= i < |history| - |events| ==> history[i].t < clock - window
  }

  lemma Advance(events: seq<Event>, history: seq<Event>, clock: real, now: real, window: real)
    requires Windowed(events, history, clock, window) && clock <= now
    ensures Windowed(events, history, now, window)
  {
  }

  lemma Append(events: seq<Event>, history: seq<Event>, clock: real, window: real, e: Event)
    requires Windowed(events, history, clock, window) && clock <= e.t
    ensures Windowed(events + [e], history + [e], e.t, window)
  {
  }

  lemma PopFront(events: seq<Event>, history: seq<Event>, clock: real, window: real)
    requires Windowed(events, history, clock, window) && events != [] && events[0].t < clock - window
    ensures Windowed(events[1..], history, clock, window)
  {
  }

  lemma FrontIsOldest(events: seq<Event>, history: seq<Event>, clock: real, window: real)
    requires Windowed(events, history, clock, window)
    ensures forall k :: 0 <= k < |events| ==> events[0].t <= events[k].t
  {
  }

  lemma WindowCounts(events: seq<Event>, history: seq<Event>, clock: real, window: real, d: Direction)
    requires Windowed(events, history, clock, window)
    ensures Frames(history, clock - window, d) == Frames(events, clock - window, d)
    ensures Bits(history, clock - window, d) == Bits(events, clock - window, d)
  {
    DropOld(history, |history| - |events|, clock - window, d);
  }

  class BusLoadWindow {
    const window: real
    const bitrate: real
    var events: seq<Event>

    ghost var history: seq<Event>
    ghost var clock: real

    ghost predicate Valid()
      reads this
    {
      Windowed(events, history, clock, window)
    }

    constructor (window: real, bitrate: real, now: real)
      ensures Valid() && this.window == window && this.bitrate == bitrate && history == [] && clock == now
    {
      this.window := window;
      this.bitrate := bitrate;
      events := [];
      history := [];
      clock := now;
    }

    /** Negative bit counts are taken as zero. */
    method Add(timestamp: real, bits: int, direction: Direction)
      requires Valid() && timestamp >= clock
      modifies this
      ensures Valid() && clock == timestamp
      ensures history == old(history) + [Event(timestamp, if bits < 0 then 0 else bits, direction)]
    {
      hide Windowed;
      var counted: nat := if bits < 0 then 0 else bits;
      var e := Event(timestamp, counted, direction);
      Append(events, history, clock, window, e);
      events := events + [e];
      history := history + [e];
      clock := timestamp;
      Prune(timestamp);
    }

    method Prune(now: real)
      requires Valid() && now >= clock
      modifies this`events, this`clock
      ensures Valid() && clock == now
      ensures forall k :: 0 <= k < |events| ==> events[k].t >= now - window
    {
      hide Windowed;
      Advance(events, history, clock, now, window);
      clock := now;
      var cutoff := now - window;
      while events != [] && events[0].t < cutoff
        invariant Valid() && clock == now
        decreases |events|
      {
        PopFront(events, history, clock, window);
        events := events[1..];
      }
      FrontIsOldest(events, history, clock, window);
    }

    /** Counts and sums are those of the whole history restricted to the window. */
    method TakeSnapshot(now: real) returns (s: Snapshot)
      requires Valid() && now >= clock
      modifies this`events, this`clock
      ensures Valid() && clock == now
      ensures s.rxFrames == Frames(history, now - window, Rx) && s.txFrames == Frames(history, now - window, Tx)
      ensures s.rxBits == Bits(history, now - window, Rx) && s.txBits == Bits(history, now - window, Tx)
      ensures s.rxRate == Rate(s.rxFrames, window) && s.txRate == Rate(s.txFrames, window)
      ensures s.bps == Rate(s.rxBits + s.txBits, window) && s.loadPercent == s.bps / AtLeastNano(bitrate) * 100.0
    {
      hide Windowed, Rate, AtLeastNano;
      Prune(now);
      WindowCounts(events, history, clock, window, Rx);
      WindowCounts(events, history, clock, window, Tx);
      var rxFrames, txFrames, rxBits, txBits := Sums(now - window);
      var bps := Rate(rxBits + txBits, window);
      s := Snapshot(
        rxFrames, txFrames, Rate(rxFrames, window), Rate(txFrames, window), rxBits, txBits,
        bps, bps / AtLeastNano(bitrate) * 100.0);
    }

    /** One pass over the deque, of which nothing is older than the cutoff. */
    method Sums(cutoff: real) returns (rxFrames: nat, txFrames: nat, rxBits: nat, txBits: nat)
      requires forall k :: 0 <= k < |events| ==> events[k].t >= cutoff
      ensures rxFrames == Frames(events, cutoff, Rx) && txFrames == Frames(events, cutoff, Tx)
      ensures rxBits == Bits(events, cutoff, Rx) && txBits == Bits(events, cutoff, Tx)
    {
      rxFrames, txFrames, rxBits, txBits := 0, 0, 0, 0;
      for k := 0 to |events|
        invariant rxFrames == Frames(events[..k], cutoff, Rx) && txFrames == Frames(events[..k], cutoff, Tx)
        invariant rxBits == Bits(events[..k], cutoff, Rx) && txBits == Bits(events[..k], cutoff, Tx)
      {
        assert events[..k + 1][..k] == events[..k];
        var e := events[k];
        if e.direction == Rx {
          rxFrames, rxBits := rxFrames + 1, rxBits + e.bits;
        } else if e.direction == Tx {
          txFrames, txBits := txFrames + 1, txBits + e.bits;
        }
      }
      assert events[..|events|] == events;
    }
  }
}
