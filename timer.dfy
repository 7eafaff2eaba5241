/** `tiledl::Timer`: a stopwatch over the backend's millisecond tick counter.
    The clock (`SDL_GetTicks`) is not read here: each call that reads it takes the current
    tick value `now` as a parameter. Tick arithmetic is `Uint32` and wraps modulo 2^32. */
module Timers {
  import opened CTypes

  class Timer {
    var startTime: Uint32
    var stopTime: Uint32
    var timing: bool

    /** `Timer()`: not timing, both timestamps zero. */
    constructor ()
      ensures !timing && startTime == 0 && stopTime == 0
    {
      timing := false;
      startTime, stopTime := 0, 0;
    }

    /** `start()`: (re)starts timing at `now`, even when already timing; the stop time is kept. */
    method Start(now: Uint32)
      modifies this
      ensures timing && startTime == now && stopTime == old(stopTime)
    {
      timing := true;
      startTime := now;
    }

    /** `stop()`: when timing, records `now` as the stop time and stops; otherwise does nothing. */
    method Stop(now: Uint32)
      modifies this
      ensures old(timing) ==> !timing && stopTime == now && startTime == old(startTime)
      ensures !old(timing) ==> !timing && stopTime == old(stopTime) && startTime == old(startTime)
    {
      if !timing {
        return;
      }
      stopTime := now;
      timing := false;
    }

    /** `getDelta()`: ticks from the start to `now` while timing, to the stop time otherwise.
        The result is the unique `Uint32` that, added to the start time modulo 2^32,
        gives the end point. */
    function GetDelta(now: Uint32): (d: Uint32)
      reads this
      ensures timing ==> (startTime + d) % TWO_32 == now
      ensures !timing ==> (startTime + d) % TWO_32 == stopTime
      ensures d == if timing then GetCurrentDelta(now) else GetTimerDelta()
    {
      if timing then WrapSub(now, startTime) else WrapSub(stopTime, startTime)
    }

    /** `getCurrentDelta()`: ticks from the start to `now`, whether or not timing. */
    function GetCurrentDelta(now: Uint32): (d: Uint32)
      reads this
      ensures (startTime + d) % TWO_32 == now
    {
      WrapSub(now, startTime)
    }

    /** `getTimerDelta()`: ticks from the start to the stop time, whether or not timing. */
    function GetTimerDelta(): (d: Uint32)
      reads this
      ensures (startTime + d) % TWO_32 == stopTime
    {
      WrapSub(stopTime, startTime)
    }
  }

  /** `start()` at `t0` then `stop()` at `t1`: the delta is `t1 - t0` modulo 2^32 from then on,
      whatever the clock reads later. */
  method StartThenStop(t: Timer, t0: Uint32, t1: Uint32)
    modifies t
    ensures !t.timing
    ensures forall later: Uint32 :: t.GetDelta(later) == WrapSub(t1, t0)
  {
    t.Start(t0);
    t.Stop(t1);
  }

  /** A tick counter that wrapped between start and stop still gives the elapsed ticks. */
  lemma WrappedDeltaExample()
    ensures WrapSub(5, 0xffff_fffb) == 10
  {
  }

  /** Any delta that lands on the same end point is the one `getDelta()` returns. */
  lemma DeltaIsElapsedTicks(t: Timer, now: Uint32, d: Uint32)
    requires t.timing ==> (t.startTime + d) % TWO_32 == now
    requires !t.timing ==> (t.startTime + d) % TWO_32 == t.stopTime
    ensures t.GetDelta(now) == d
  {
    if t.timing {
      WrapSubUnique(now, t.startTime, d);
    } else {
      WrapSubUnique(t.stopTime, t.startTime, d);
    }
  }
}
