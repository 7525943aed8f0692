/**
 * The flags an STT pump parks on (crates/ffi/src/session.rs, `PumpState` and its
 * condition variable). Each method is one block run under the lock.
 */
module PumpCells {

  /** `Parked(false)` is inside `Condvar::wait`; `Parked(true)` has been notified and not yet run. */
  datatype Waiter = Away | Parked(notified: bool)

  datatype Flags = Flags(wake: bool, stop: bool, paused: bool, waiter: Waiter) {

    /** The park condition is false: the pump leaves its wait loop. */
    predicate Open() {
      stop || (wake && !paused)
    }

    function Notified(): Flags {
      if waiter.Parked? then this.(waiter := Parked(true)) else this
    }

    function Woken(): Flags {
      this.(wake := true).Notified()
    }

    function Stopped(): Flags {
      this.(stop := true).Notified()
    }

    function Paused(): Flags {
      this.(paused := true)
    }

    function Resumed(): Flags {
      this.(paused := false).Notified()
    }

    /** A pump pass through the lock: park, leave on `stop`, or take the wake and go. */
    function Checked(): Flags {
      if !Open() then this.(waiter := Parked(false))
      else if stop then this
      else this.(wake := false)
    }
  }

  datatype Decision = Park | Exit | Pass

  function Decide(f: Flags): Decision {
    if !f.Open() then Park else if f.stop then Exit else Pass
  }

  class PumpCell {
    var wake: bool
    var stop: bool
    var paused: bool
    var waiter: Waiter

    function View(): Flags
      reads this
    {
      Flags(wake, stop, paused, waiter)
    }

    constructor ()
      ensures View() == Flags(false, false, false, Away)
    {
      wake, stop, paused, waiter := false, false, false, Away;
    }

    method Notify()
      modifies this`waiter
      ensures View() == old(View()).Notified()
    {
      if waiter.Parked? {
        waiter := Parked(true);
      }
    }

    method Wake()
      modifies this
      ensures View() == old(View()).Woken()
    {
      wake := true;
      Notify();
    }

    method Stop()
      modifies this
      ensures View() == old(View()).Stopped()
    {
      stop := true;
      Notify();
    }

    method Pause()
      modifies this`paused
      ensures View() == old(View()).Paused()
    {
      paused := true;
    }

    method Resume()
      modifies this
      ensures View() == old(View()).Resumed()
    {
      paused := false;
      Notify();
    }

    method Check() returns (d: Decision)
      requires waiter == Away
      modifies this
      ensures d == Decide(old(View()))
      ensures View() == old(View()).Checked()
    {
      if !stop && (!wake || paused) {
        waiter := Parked(false);
        return Park;
      }
      if stop {
        return Exit;
      }
      wake := false;
      return Pass;
    }
  }
}
