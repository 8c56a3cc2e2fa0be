/** A clock as the limiters use it: it may advance by any amount before each reading but never goes back. */
module Clocks {
  class Clock {
    var now: int

    constructor (start: int)
      ensures now == start
    {
      now := start;
    }

    /** Some time may pass before the reading. */
    method Now() returns (t: int)
      modifies this
      ensures old(now) <= now && t == now
    {
      var elapsed: int :| 0 <= elapsed;
      now := now + elapsed;
      t := now;
    }

    /** A wait that completes lasts at least as long as asked; one that is cancelled lasts any time. */
    method Wait(delay: int, completes: bool)
      modifies this
      ensures old(now) <= now && (completes ==> old(now) + delay <= now)
    {
      var extra: int :| 0 <= extra;
      if completes && delay > 0 {
        now := now + delay;
      }
      now := now + extra;
    }
  }
}
