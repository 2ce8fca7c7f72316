/**
 * The per-question countdown (Assets/QuizGame/Systems/QuestionTimer.cs).
 * Two fields change in place, the remaining time and the running flag; the
 * timer's C# events are recorded, in firing order, in a ghost trace. The
 * frame delta that Unity supplies through Time.deltaTime is a parameter of
 * Update. `TimerState` is the value of the three at one moment, and the
 * `After...` functions say what each operation makes of it.
 */
module Timer {

  datatype TimerEvent = Started | Stopped | Tick(remaining: real) | Elapsed

  datatype TimerState = TimerState(timeLeft: real, running: bool, events: seq<TimerEvent>)

  /** Mathf.Max(0, seconds). */
  function ClampAtZero(x: real): (r: real)
    ensures r >= 0.0
    ensures x >= 0.0 ==> r == x
    ensures x < 0.0 ==> r == 0.0
  {
    if x < 0.0 then 0.0 else x
  }

  /** StartTimer(seconds): set the time, run, fire Started then a tick. */
  function AfterStart(t: TimerState, seconds: real): TimerState {
    var left := ClampAtZero(seconds);
    TimerState(left, true, t.events + [Started, Tick(left)])
  }

  /** InitTimer(seconds): set the time without running; fire only a tick. */
  function AfterInit(t: TimerState, seconds: real): TimerState {
    var left := ClampAtZero(seconds);
    TimerState(left, false, t.events + [Tick(left)])
  }

  /** StopTimer(): stop; fire Stopped only if the timer was running. */
  function AfterStop(t: TimerState): TimerState {
    TimerState(t.timeLeft, false, t.events + (if t.running then [Stopped] else []))
  }

  /** Update() for one frame of length deltaTime. */
  function AfterUpdate(t: TimerState, deltaTime: real): TimerState {
    if !t.running then t
    else
      var left := ClampAtZero(t.timeLeft - deltaTime);
      if left <= 0.0 then TimerState(left, false, t.events + [Tick(left), Elapsed])
      else TimerState(left, true, t.events + [Tick(left)])
  }

  /**
   * The number of Elapsed events since the most recent Started
   * (since the beginning when nothing was ever started).
   */
  function ElapsedSinceStart(ev: seq<TimerEvent>): nat
  {
    if ev == [] then 0
    else match ev[|ev| - 1]
      case Started => 0
      case Elapsed => ElapsedSinceStart(ev[..|ev| - 1]) + 1
      case _ => ElapsedSinceStart(ev[..|ev| - 1])
  }

  /**
   * The remaining time is never negative, and at most one Elapsed has fired
   * since the last start: none at all while the timer still runs.
   */
  predicate TimerInv(t: TimerState) {
    t.timeLeft >= 0.0 &&
    ElapsedSinceStart(t.events) <= 1 &&
    (t.running ==> ElapsedSinceStart(t.events) == 0)
  }

  /** Appending ticks and stops leaves the count of Elapsed since the last start alone. */
  lemma {:induction false} ElapsedSinceStartQuiet(ev: seq<TimerEvent>, more: seq<TimerEvent>)
    requires forall k :: 0 <= k < |more| ==> more[k].Tick? || more[k].Stopped?
    ensures ElapsedSinceStart(ev + more) == ElapsedSinceStart(ev)
  {
    if more != [] {
      var init := more[..|more| - 1];
      var all := ev + more;
      assert all[..|all| - 1] == ev + init;
      assert all[|all| - 1] == more[|more| - 1];
      ElapsedSinceStartQuiet(ev, init);
    } else {
      assert ev + more == ev;
    }
  }

  /** Started followed by a tick resets the count. */
  lemma ElapsedSinceStartRestart(ev: seq<TimerEvent>, t: real)
    ensures ElapsedSinceStart(ev + [Started, Tick(t)]) == 0
  {
    var ev' := ev + [Started, Tick(t)];
    assert ev'[..|ev'| - 1] == ev + [Started];
  }

  /** A tick followed by Elapsed raises the count by one. */
  lemma ElapsedSinceStartTickElapsed(ev: seq<TimerEvent>, t: real)
    ensures ElapsedSinceStart(ev + [Tick(t), Elapsed]) == ElapsedSinceStart(ev) + 1
  {
    var ev' := ev + [Tick(t), Elapsed];
    assert ev'[..|ev'| - 1] == ev + [Tick(t)];
    ElapsedSinceStartQuiet(ev, [Tick(t)]);
  }

  /** Every timer operation keeps the invariant; in particular one start yields at most one Elapsed. */
  lemma TimerInvPreserved(t: TimerState, seconds: real, deltaTime: real)
    requires TimerInv(t)
    ensures TimerInv(AfterStart(t, seconds))
    ensures TimerInv(AfterInit(t, seconds))
    ensures TimerInv(AfterStop(t))
    ensures TimerInv(AfterUpdate(t, deltaTime))
  {
    ElapsedSinceStartRestart(t.events, ClampAtZero(seconds));
    ElapsedSinceStartQuiet(t.events, [Tick(ClampAtZero(seconds))]);
    ElapsedSinceStartQuiet(t.events, if t.running then [Stopped] else []);
    var left := ClampAtZero(t.timeLeft - deltaTime);
    ElapsedSinceStartQuiet(t.events, [Tick(left)]);
    ElapsedSinceStartTickElapsed(t.events, left);
  }

  /**
   * Elapsed fires exactly on the frame that brings the time to zero, and
   * that frame also stops the timer; a frame while stopped does nothing.
   */
  lemma UpdateElapsesAtZero(t: TimerState, deltaTime: real)
    requires TimerInv(t)
    ensures !t.running ==> AfterUpdate(t, deltaTime) == t
    ensures t.running ==>
      var u := AfterUpdate(t, deltaTime);
      u.timeLeft >= 0.0 &&
      u.events[..|t.events| + 1] == t.events + [Tick(u.timeLeft)] &&
      ((u.events == t.events + [Tick(u.timeLeft), Elapsed] && !u.running) <==> u.timeLeft == 0.0) &&
      (u.timeLeft > 0.0 ==> u.events == t.events + [Tick(u.timeLeft)] && u.running)
  {
  }

  /**
   * StartTimer runs the clock from the clamped time and announces Started,
   * then that time; InitTimer sets the same time but leaves the clock
   * stopped and fires only the tick, never Started, Stopped or Elapsed.
   */
  lemma StartAndInitEffect(t: TimerState, seconds: real)
    ensures var s := AfterStart(t, seconds);
      s.running && s.timeLeft >= 0.0 && (seconds >= 0.0 ==> s.timeLeft == seconds) &&
      s.events == t.events + [Started, Tick(s.timeLeft)]
    ensures var i := AfterInit(t, seconds);
      !i.running && i.timeLeft == AfterStart(t, seconds).timeLeft &&
      |i.events| == |t.events| + 1 && i.events[..|t.events|] == t.events &&
      i.events[|t.events|] == Tick(i.timeLeft) &&
      ElapsedSinceStart(i.events) == ElapsedSinceStart(t.events)
  {
    ElapsedSinceStartQuiet(t.events, [Tick(ClampAtZero(seconds))]);
  }

  /** A second stop fires nothing. */
  lemma StopTwice(t: TimerState)
    ensures AfterStop(AfterStop(t)) == AfterStop(t)
    ensures !AfterStop(t).running
  {
  }

  class QuestionTimer {
    var timeLeft: real
    var running: bool
    ghost var events: seq<TimerEvent>

    ghost function State(): TimerState
      reads this
    {
      TimerState(timeLeft, running, events)
    }

    ghost predicate Valid()
      reads this
    {
      TimerInv(State())
    }

    constructor ()
      ensures Valid() && State() == TimerState(0.0, false, [])
    {
      timeLeft := 0.0;
      running := false;
      events := [];
    }

    method Update(deltaTime: real)
      requires Valid()
      modifies this
      ensures State() == AfterUpdate(old(State()), deltaTime)
      ensures Valid()
    {
      TimerInvPreserved(State(), 0.0, deltaTime);
      if !running {
        return;
      }
      timeLeft := timeLeft - deltaTime;
      if timeLeft < 0.0 {
        timeLeft := 0.0;
      }
      events := events + [Tick(timeLeft)];
      if timeLeft <= 0.0 {
        running := false;
        events := events + [Elapsed];
      }
    }

    method StartTimer(seconds: real)
      requires Valid()
      modifies this
      ensures State() == AfterStart(old(State()), seconds)
      ensures Valid()
    {
      TimerInvPreserved(State(), seconds, 0.0);
      timeLeft := ClampAtZero(seconds);
      running := true;
      events := events + [Started];
      events := events + [Tick(timeLeft)];
    }

    method InitTimer(seconds: real)
      requires Valid()
      modifies this
      ensures State() == AfterInit(old(State()), seconds)
      ensures Valid()
    {
      TimerInvPreserved(State(), seconds, 0.0);
      timeLeft := ClampAtZero(seconds);
      running := false;
      events := events + [Tick(timeLeft)];
    }

    method StopTimer()
      requires Valid()
      modifies this
      ensures State() == AfterStop(old(State()))
      ensures Valid()
    {
      TimerInvPreserved(State(), 0.0, 0.0);
      var wasRunning := running;
      running := false;
      if wasRunning {
        events := events + [Stopped];
      }
    }
  }
}
