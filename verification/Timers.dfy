/** The one restartable timer of the store. Moments are integers; 0 is the zero time. */
module Timers {
  import opened Wrappers

  /** The last cutoff asked for, and the moment the running timer goes off (None: stopped or gone off). */
  datatype Timer = Timer(cutoff: int, pending: Option<int>)
  {
    /** Asks for a run at t. A request already planned for earlier, and still ahead, stands. */
    function AfterFunc(t: int, now: int): Timer {
      if cutoff != 0 && cutoff < t && now < cutoff then this else Timer(t, Some(t))
    }

    function GoneOff(): Timer {
      Timer(cutoff, None)
    }
  }

  class RefreshTimer {
    var cutoff: int
    // What the runtime holds of the timer. The code never reads it.
    ghost var pending: Option<int>

    constructor ()
      ensures Value() == Timer(0, None)
    {
      cutoff, pending := 0, None;
    }

    ghost function Value(): Timer
      reads this
    {
      Timer(cutoff, pending)
    }

    /** A request already planned for earlier, and still ahead, is left alone; any other is replaced. */
    method AfterFunc(t: int, now: int)
      modifies this
      ensures Value() == old(Value()).AfterFunc(t, now)
      ensures old(cutoff) != 0 && now < old(cutoff) < t ==> cutoff == old(cutoff) && pending == old(pending)
      ensures old(cutoff) == 0 || old(cutoff) <= now || t <= old(cutoff) ==> cutoff == t && pending == Some(t)
    {
      if cutoff != 0 && cutoff < t && now < cutoff {
        return;
      }
      // Stopping a timer that has gone off already stops nothing.
      pending := None;
      cutoff := t;
      pending := Some(t);
    }

    /** The runtime starts the planned function. */
    ghost method GoOff()
      modifies this
      ensures Value() == old(Value()).GoneOff()
    {
      pending := None;
    }
  }
}
