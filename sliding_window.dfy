/**
 * dto/SlidingWindow.java: a fixed-size window counter that resets lazily.
 *
 * The value `Window` is what one counter holds (`count`, `windowStart`); the
 * functions Roll, Probe and Recorded say what the three operations do to it, and
 * the class `SlidingWindow` updates its fields in place as the Java object does,
 * each method proved to move its state as those functions say.
 */
module Windows {

  /** The state of one counter: `count` requests recorded since `start` (epoch ms). */
  datatype Window = Window(count: nat, start: int)

  /** A freshly constructed counter: count 0, windowStart at the Java default 0. */
  const FreshWindow: Window := Window(0, 0)

  /** True when the window that began at `w.start` has run its full `size` by `now`. */
  predicate HasElapsed(w: Window, size: int, now: int) {
    now - w.start >= size
  }

  /** `cleanExpired(now)`: reset to an empty window starting at `now` once the window has elapsed. */
  function Roll(w: Window, size: int, now: int): Window {
    if HasElapsed(w, size, now) then Window(0, now) else w
  }

  /** `isRateLimitExceeded(now, limit)`: the verdict and the rolled window. */
  function Probe(w: Window, size: int, now: int, limit: int): (bool, Window) {
    var r := Roll(w, size, now);
    (r.count >= limit, r)
  }

  /** `record(now)`: the rolled window with one more request. */
  function Recorded(w: Window, size: int, now: int): Window {
    var r := Roll(w, size, now);
    Window(r.count + 1, r.start)
  }

  /** After any operation at `now` on a window of positive size, the window has not elapsed at `now`. */
  lemma {:induction false} RollSettles(w: Window, size: int, now: int)
    requires size > 0
    ensures !HasElapsed(Roll(w, size, now), size, now)
    ensures !HasElapsed(Recorded(w, size, now), size, now)
    ensures Roll(Roll(w, size, now), size, now) == Roll(w, size, now)
  {
  }

  /** Rolling never raises the count, and resets it only when the window has elapsed. */
  lemma RollNeverRaises(w: Window, size: int, now: int)
    ensures Roll(w, size, now).count <= w.count
    ensures Roll(w, size, now).count < w.count ==> HasElapsed(w, size, now)
  {
  }

  /** `limit <= 0` is always reported as exceeded. */
  lemma NonPositiveLimitAlwaysExceeded(w: Window, size: int, now: int, limit: int)
    requires limit <= 0
    ensures Probe(w, size, now, limit).0
  {
  }

  /** Two probes at the same instant with the same limit agree, and the second changes nothing. */
  lemma ProbeIdempotent(w: Window, size: int, now: int, limit: int)
    requires size > 0
    ensures Probe(Probe(w, size, now, limit).1, size, now, limit) == Probe(w, size, now, limit)
  {
  }

  class SlidingWindow {
    const windowSize: int
    var count: nat
    var windowStart: int

    function State(): Window
      reads this
    {
      Window(count, windowStart)
    }

    constructor (windowSize: int)
      ensures this.windowSize == windowSize
      ensures State() == FreshWindow
    {
      this.windowSize := windowSize;
      count := 0;
      windowStart := 0;
    }

    /** Resets exactly when `now - windowStart >= windowSize`; otherwise changes nothing. */
    method CleanExpired(now: int)
      modifies this
      ensures State() == Roll(old(State()), windowSize, now)
      ensures old(now - windowStart >= windowSize) ==> count == 0 && windowStart == now
      ensures old(now - windowStart < windowSize) ==> unchanged(this)
    {
      if now - windowStart >= windowSize {
        count := 0;
        windowStart := now;
      }
    }

    /** Rolls, then reports `count >= limit`; never increments the count. */
    method IsRateLimitExceeded(now: int, limit: int) returns (exceeded: bool)
      modifies this
      ensures (exceeded, State()) == Probe(old(State()), windowSize, now, limit)
      ensures exceeded <==> count >= limit
      ensures count <= old(count)
      ensures windowSize > 0 ==> now - windowStart < windowSize
    {
      CleanExpired(now);
      exceeded := count >= limit;
    }

    /** Rolls, then counts one more request. */
    method Record(now: int)
      modifies this
      ensures State() == Recorded(old(State()), windowSize, now)
      ensures count == Roll(old(State()), windowSize, now).count + 1
      ensures windowSize > 0 ==> now - windowStart < windowSize
    {
      CleanExpired(now);
      count := count + 1;
    }
  }
}
