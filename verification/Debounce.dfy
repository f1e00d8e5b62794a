/**
 The debounced reload: one flag and one timer guarded by one mutex.  A timer that
 has expired runs its callback in a goroutine of its own, so a callback may be
 waiting for the mutex when the timer is stopped or replaced.
 */
module Debounce {

  /** `armed`: the latest timer has not expired; `waiting`: callbacks that started and have yet to get the mutex. */
  datatype Timer = Timer(pending: bool, armed: bool, waiting: nat) {
    /** Set the flag, stop the old timer, start a new one. */
    function Schedule(): Timer {
      this.(pending := true, armed := true)
    }

    function Expire(): Timer
      requires armed
    {
      this.(armed := false, waiting := waiting + 1)
    }

    /** The callback clears the flag; it sends a reload only if it found the flag set. */
    function Callback(): Timer
      requires waiting > 0
    {
      this.(pending := false, waiting := waiting - 1)
    }

    /** The last-tunnel cleanup stops the timer, clears the flag and sends a reload itself. */
    function Cleanup(): Timer {
      this.(pending := false, armed := false)
    }

    predicate Drained() {
      !armed && waiting == 0
    }
  }

  const QUIET := Timer(false, false, 0)

  ghost predicate WellArmed(t: Timer) {
    t.pending ==> t.armed || t.waiting > 0
  }

  datatype Event = Scheduled | Expired | CalledBack | CleanedUp

  predicate Enabled(t: Timer, e: Event) {
    match e
    case Scheduled => true
    case Expired => t.armed
    case CalledBack => t.waiting > 0
    case CleanedUp => true
  }

  function Next(t: Timer, e: Event): Timer
    requires Enabled(t, e)
  {
    match e
    case Scheduled => t.Schedule()
    case Expired => t.Expire()
    case CalledBack => t.Callback()
    case CleanedUp => t.Cleanup()
  }

  /** Does this event call reloadStunnel? */
  predicate Attempts(t: Timer, e: Event) {
    e.CleanedUp? || (e.CalledBack? && t.pending)
  }

  /** Any interleaving of schedules, expiries, callbacks and cleanups, from a quiet start. */
  ghost predicate Behaviour(ts: seq<Timer>, es: seq<Event>) {
    && |ts| == |es| + 1
    && ts[0] == QUIET
    && (forall i :: 0 <= i < |es| ==> Enabled(ts[i], es[i]) && ts[i + 1] == Next(ts[i], es[i]))
  }

  lemma {:induction false} PendingIsArmed(ts: seq<Timer>, es: seq<Event>, n: nat)
    requires Behaviour(ts, es) && n < |ts|
    ensures WellArmed(ts[n])
  {
    if n > 0 {
      PendingIsArmed(ts, es, n - 1);
    }
  }

  lemma {:induction false} PendingUntilAttempt(ts: seq<Timer>, es: seq<Event>, i: nat, j: nat)
    requires Behaviour(ts, es) && i < j < |ts|
    requires es[i].Scheduled?
    requires forall k :: i < k < j ==> !Attempts(ts[k], es[k])
    ensures ts[j].pending
  {
    if i + 1 < j {
      PendingUntilAttempt(ts, es, i, j - 1);
    }
  }

  /** Once the timers have drained, every schedule has been followed by a reload attempt. */
  lemma NoScheduleIsLost(ts: seq<Timer>, es: seq<Event>, i: nat, j: nat)
    requires Behaviour(ts, es) && i < j < |ts|
    requires es[i].Scheduled? && ts[j].Drained()
    ensures exists k :: i < k < j && Attempts(ts[k], es[k])
  {
    PendingIsArmed(ts, es, j);
    if forall k :: i < k < j ==> !Attempts(ts[k], es[k]) {
      PendingUntilAttempt(ts, es, i, j);
    }
  }

  ghost function CountAttempts(ts: seq<Timer>, es: seq<Event>, n: nat): nat
    requires n <= |es| && n <= |ts|
  {
    if n == 0 then 0 else CountAttempts(ts, es, n - 1) + if Attempts(ts[n - 1], es[n - 1]) then 1 else 0
  }

  /** Schedules and cleanups among the first n events. */
  ghost function CountCauses(es: seq<Event>, n: nat): nat
    requires n <= |es|
  {
    if n == 0 then 0 else CountCauses(es, n - 1) + if es[n - 1].Scheduled? || es[n - 1].CleanedUp? then 1 else 0
  }

  lemma {:induction false} AttemptsBounded(ts: seq<Timer>, es: seq<Event>, n: nat)
    requires Behaviour(ts, es) && n < |ts|
    ensures CountAttempts(ts, es, n) + (if ts[n].pending then 1 else 0) <= CountCauses(es, n)
  {
    if n > 0 {
      AttemptsBounded(ts, es, n - 1);
    }
  }

  /**
   A callback already waiting when the timer is replaced serves the new schedule, and the new timer then finds
   nothing to do.
   */
  lemma CallbackInFlightServesTheNextSchedule()
    ensures exists ts, es ::
              && Behaviour(ts, es)
              && es == [Scheduled, Expired, Scheduled, CalledBack, Expired, CalledBack]
              && Attempts(ts[3], es[3]) && !Attempts(ts[5], es[5]) && ts[6] == QUIET
  {
    var es := [Scheduled, Expired, Scheduled, CalledBack, Expired, CalledBack];
    var t1 := QUIET.Schedule();
    var t2 := t1.Expire();
    var t3 := t2.Schedule();
    var t4 := t3.Callback();
    var t5 := t4.Expire();
    var ts := [QUIET, t1, t2, t3, t4, t5, t5.Callback()];
    assert Behaviour(ts, es);
  }
}
