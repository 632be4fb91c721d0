/**
 * The Pomodoro focus timer: two state slots, the seconds left
 * (`pomodoroTime`, initially 25 * 60) and the running flag
 * (`isPomodoroActive`), driven by one effect that re-runs whenever either
 * slot changes.
 *
 * The effect either arms a one-second interval, whose callback writes
 * `pomodoroTime - 1`, or, when it sees 0 seconds left, stops the timer,
 * raises the "Pomodoro Complete!" alert and puts the full 25 minutes back.
 * The Start/Pause button only negates the running flag.
 *
 * A tick is one firing of the interval followed by the effect run that the
 * change provokes; the alert is recorded by counting it.
 */
module FocusTimer {
  import TimeFormat

  /** The session length in seconds, `25 * 60`. */
  const Duration: int := 25 * 60

  datatype TimerState = TimerState(remaining: int, running: bool, completionAlerts: nat)

  /** The state at application start: full duration, paused, no alert yet. */
  const Initial := TimerState(Duration, false, 0)

  /**
   * The states the timer rests in between events: some time left, never more
   * than a session. The 0 written by the last second is settled by the effect
   * in the same tick.
   */
  predicate Consistent(s: TimerState) {
    1 <= s.remaining <= Duration
  }

  /**
   * The interval callback: it is armed only while running with time left, and then
   * takes one second off; nothing else changes.
   */
  function Decrement(s: TimerState): (t: TimerState)
    ensures t.running == s.running && t.completionAlerts == s.completionAlerts
    ensures t.remaining == (if s.running && s.remaining > 0 then s.remaining - 1 else s.remaining)
    ensures s.remaining >= 0 ==> t.remaining >= 0
  {
    if s.running && s.remaining > 0 then s.(remaining := s.remaining - 1) else s
  }

  /**
   * The effect's own decision after a change: arm the interval (no state
   * change) while running with time left, else on 0 stop, alert and reset.
   */
  function Settle(s: TimerState): (t: TimerState)
    ensures s.remaining >= 0 ==> t.remaining > 0
    ensures s.remaining != 0 ==> t == s
    ensures s.remaining == 0 ==> t == TimerState(Duration, false, s.completionAlerts + 1)
    ensures t.completionAlerts == if s.remaining == 0 then s.completionAlerts + 1 else s.completionAlerts
  {
    if s.running && s.remaining > 0 then s
    else if s.remaining == 0 then TimerState(Duration, false, s.completionAlerts + 1)
    else s
  }

  /** One elapsed second. */
  function TickStep(s: TimerState): (t: TimerState)
    ensures Consistent(s) ==> Consistent(t)
    ensures s.running && s.remaining > 1 ==>
      t.remaining == s.remaining - 1 && t.running && t.completionAlerts == s.completionAlerts
    ensures s.running && s.remaining == 1 ==> t == TimerState(Duration, false, s.completionAlerts + 1)
    ensures !s.running && s.remaining > 0 ==> t == s
    ensures Consistent(s) ==>
      (t.completionAlerts == s.completionAlerts + 1 <==> s.running && s.remaining == 1)
    ensures Consistent(s) ==> t.completionAlerts <= s.completionAlerts + 1
    ensures t.running ==> s.running
  {
    Settle(Decrement(s))
  }

  /** The Start/Pause button. */
  function ToggleStep(s: TimerState): (t: TimerState)
    ensures Consistent(s) ==>
      t.running == !s.running && t.remaining == s.remaining && t.completionAlerts == s.completionAlerts
  {
    Settle(s.(running := !s.running))
  }

  /** `n` elapsed seconds with no button press. */
  function Ticks(s: TimerState, n: nat): (t: TimerState)
    decreases n
  {
    if n == 0 then s else Ticks(TickStep(s), n - 1)
  }

  datatype Event = Second | Press

  /** A run of the timer: seconds and button presses in any order. */
  function Run(s: TimerState, events: seq<Event>): (t: TimerState)
    decreases |events|
  {
    if events == [] then s
    else
      var next := if events[0].Second? then TickStep(s) else ToggleStep(s);
      Run(next, events[1..])
  }

  // ---------------------------------------------------------------------
  // Lemmas

  /**
   * Whatever the order of seconds and button presses, the time left between
   * events stays between 1 and 1500 seconds, and each event raises at most one alert.
   */
  lemma {:induction false} RunStaysConsistent(s: TimerState, events: seq<Event>)
    requires Consistent(s)
    ensures Consistent(Run(s, events))
    ensures s.completionAlerts <= Run(s, events).completionAlerts <= s.completionAlerts + |events|
    decreases |events|
  {
    if events != [] {
      var next := if events[0].Second? then TickStep(s) else ToggleStep(s);
      RunStaysConsistent(next, events[1..]);
    }
  }

  /** While running, the first `k` seconds before the end each take exactly one second off. */
  lemma {:induction false} CountdownPrefix(s: TimerState, k: nat)
    requires Consistent(s) && s.running && k < s.remaining
    ensures Ticks(s, k) == s.(remaining := s.remaining - k)
    decreases k
  {
    if k > 0 {
      var t := TickStep(s);
      assert t == s.(remaining := s.remaining - 1);
      CountdownPrefix(t, k - 1);
    }
  }

  /**
   * A running session left alone to the end raises the alert exactly once,
   * on its last second, and comes to rest paused with the full duration.
   */
  lemma CountdownCompletesOnce(s: TimerState)
    requires Consistent(s) && s.running
    ensures forall k :: 0 <= k < s.remaining ==>
      Ticks(s, k).completionAlerts == s.completionAlerts && Ticks(s, k).running
    ensures Ticks(s, s.remaining) == TimerState(Duration, false, s.completionAlerts + 1)
  {
    forall k | 0 <= k < s.remaining
      ensures Ticks(s, k).completionAlerts == s.completionAlerts && Ticks(s, k).running
    {
      CountdownPrefix(s, k);
    }
    var last := s.remaining - 1;
    CountdownPrefix(s, last);
    TicksSplit(s, last, 1);
  }

  lemma {:induction false} TicksSplit(s: TimerState, m: nat, n: nat)
    ensures Ticks(s, m + n) == Ticks(Ticks(s, m), n)
    decreases m
  {
    if m > 0 {
      TicksSplit(TickStep(s), m - 1, n);
    }
  }

  /** From application start: one press and 1500 seconds give one alert and the start state back. */
  lemma FullSession()
    ensures Ticks(ToggleStep(Initial), Duration) == Initial.(completionAlerts := 1)
  {
    CountdownCompletesOnce(ToggleStep(Initial));
  }

  /** A paused timer ignores any number of seconds: pausing never resets or drifts. */
  lemma {:induction false} PausedTimerFrozen(s: TimerState, n: nat)
    requires Consistent(s) && !s.running
    ensures Ticks(s, n) == s
    decreases n
  {
    if n > 0 {
      PausedTimerFrozen(TickStep(s), n - 1);
    }
  }

  /** Two presses with no second between them restore the state exactly. */
  lemma ToggleTwiceRestores(s: TimerState)
    requires Consistent(s)
    ensures ToggleStep(ToggleStep(s)) == s
  {
  }

  /** Running is only ever switched on by the button: seconds alone never start a paused timer. */
  lemma {:induction false} OnlyTheButtonStarts(s: TimerState, n: nat)
    requires !s.running
    ensures !Ticks(s, n).running
    decreases n
  {
    if n > 0 {
      OnlyTheButtonStarts(TickStep(s), n - 1);
    }
  }

  // ---------------------------------------------------------------------
  // The timer as the app holds it: two mutable slots and an alert counter

  class PomodoroTimer {
    var remaining: int
    var running: bool
    var completionAlerts: nat

    function State(): (s: TimerState)
      reads this
    {
      TimerState(remaining, running, completionAlerts)
    }

    predicate Valid()
      reads this
    {
      Consistent(State())
    }

    constructor ()
      ensures Valid() && State() == Initial
    {
      remaining := Duration;
      running := false;
      completionAlerts := 0;
    }

    /** One elapsed second: the interval callback, then the effect it provokes. */
    method Tick()
      requires Valid()
      modifies this
      ensures Valid() && State() == TickStep(old(State()))
      ensures old(running) && old(remaining) > 1 ==>
        remaining == old(remaining) - 1 && running && completionAlerts == old(completionAlerts)
      ensures old(running) && old(remaining) == 1 ==>
        remaining == Duration && !running && completionAlerts == old(completionAlerts) + 1
      ensures !old(running) ==> unchanged(this)
    {
      if running && remaining > 0 {
        remaining := remaining - 1;
      }
      if remaining == 0 {
        running := false;
        completionAlerts := completionAlerts + 1;
        remaining := Duration;
      }
    }

    /** The Start/Pause button. */
    method Toggle()
      requires Valid()
      modifies this
      ensures Valid() && State() == ToggleStep(old(State()))
      ensures running == !old(running) && remaining == old(remaining)
      ensures completionAlerts == old(completionAlerts)
    {
      running := !running;
      // The effect run that follows finds time left, so it only arms or disarms the interval.
    }

    /** The clock face, `formatTime(pomodoroTime)`: always exactly `MM:SS`. */
    function Display(): (r: string)
      reads this
      ensures Valid() ==> |r| == 5 && r[2] == ':'
      ensures Valid() ==> TimeFormat.ParseTime(r) == TimeFormat.Some((remaining / 60, remaining % 60))
    {
      var r := TimeFormat.FormatTime(remaining);
      if Valid() then
        TimeFormat.FormatTimeShape(remaining);
        TimeFormat.FormatTimeExact(remaining);
        TimeFormat.FormatParseRoundTrip(remaining);
        r
      else r
    }
  }
}
