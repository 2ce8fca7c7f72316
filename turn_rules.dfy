/**
 * The rules of the turn engine (Assets/QuizGame/Systems/TurnManager.cs) on
 * values. An `Engine` is everything the engine's operations read or write
 * at one moment: the contestant records, the turn fields, the return stack,
 * the trace of C# events raised so far, the timer and the bank's five
 * queues. Each `After...` function is what one operation makes of it; the
 * class in module Turns is proved to perform exactly these transitions, and
 * the lemmas below state what the game promises about them.
 *
 * In an event a contestant is given by roster index, and a roster payload
 * (the scoreboard, the end of the game) by its scores.
 */
module TurnRules {
  import opened Optional
  import opened Points
  import opened Students
  import opened Timer
  import opened Bank

  /** Where to resume once a redirected question is resolved. */
  datatype ReturnPoint = ReturnPoint(studentIndex: int, nextQuestionIndex: int)

  datatype Event =
    | TurnStarted(student: int)
    | QuestionStarted(student: int, number: int, points: int, forced: bool)
    | PointsAwarded(student: int, points: int)
    | ShowTimeoutChoices
    | HideTimeoutChoices
    | StudentFinished(student: int)
    | ScoreboardChanged(scores: seq<int>)
    | HideChooseStar
    | EndGame(scores: seq<int>)
    | AnswerCorrect

  /** The engine's configuration: the points table and the time per question. */
  datatype Setup = Setup(points: PointsConfig, questionTimeSeconds: real)

  /** The return stack's top is its last element. */
  datatype Engine = Engine(
    roster: seq<StudentState>,
    current: int,
    slot: int,
    locked: Option<Question>,
    waiting: bool,
    turns: int,
    stack: seq<ReturnPoint>,
    events: seq<Event>,
    timer: TimerState,
    queues: seq<Option<seq<Question>>>)

  /** C# integer division by two, which truncates toward zero. */
  function HalfTruncated(p: int): (h: int)
    ensures p >= 0 ==> 0 <= h && 2 * h <= p < 2 * h + 2
    ensures p < 0 ==> h <= 0 && 2 * h - 2 < p <= 2 * h
  {
    if p >= 0 then p / 2 else -((-p) / 2)
  }

  /**
   * The question held after a slot opens: the one already locked, else the
   * bank's draw, else a placeholder naming the slot's point value.
   */
  function Locked(held: Option<Question>, drawn: Option<Question>, points: int): (q: Option<Question>)
    ensures q.Some?
    ensures held.Some? ==> q == held
    ensures held.None? && drawn.Some? ==> q == drawn
    ensures held.None? && drawn.None? ==> q == Some(Placeholder(points))
  {
    if held.Some? then held else if drawn.Some? then drawn else Some(Placeholder(points))
  }

  /** Every return point names a contestant of the roster and a slot after the first. */
  predicate StackValid(stack: seq<ReturnPoint>, n: int) {
    forall k :: 0 <= k < |stack| ==> 0 <= stack[k].studentIndex < n && 1 <= stack[k].nextQuestionIndex
  }

  /** The shape every operation needs: a slot index, five queues and a valid return stack. */
  predicate Shaped(e: Engine) {
    0 <= e.slot && |e.queues| == TierCount && StackValid(e.stack, |e.roster|)
  }

  /** A contestant's turn is under way. */
  predicate InTurn(e: Engine) {
    0 <= e.current < |e.roster|
  }

  predicate Ready(e: Engine) {
    Shaped(e) && InTurn(e)
  }

  /**
   * What the engine keeps true: the shape above, no turn or the index of a
   * contestant, and a finished-turn count and star counts that are never
   * negative. (The timer keeps its own invariant.)
   */
  predicate Inv(e: Engine) {
    Shaped(e) &&
    -1 <= e.current < |e.roster| && 0 <= e.turns &&
    (forall i :: 0 <= i < |e.roster| ==> e.roster[i].starCount >= 0)
  }

  /** Whether the slot after `e`'s resolved question is past the last one. */
  predicate Finishes(setup: Setup, e: Engine) {
    (if |e.stack| > 0 then e.stack[|e.stack| - 1].nextQuestionIndex else e.slot + 1) >= setup.points.Count()
  }

  // ---------------------------------------------------------------------
  // The transitions, one per operation of TurnManager.cs
  // ---------------------------------------------------------------------

  /** StartQuestion(force). */
  function AfterStartQuestion(setup: Setup, e: Engine, force: bool): Engine
    requires Ready(e)
  {
    if e.slot >= setup.points.Count() then
      e.(events := e.events + [StudentFinished(e.current)])
    else
      var points := setup.points.Get(e.slot);
      e.(locked := Locked(e.locked, FrontOf(e.queues, e.slot), points),
         queues := if e.locked.Some? then e.queues else AfterDraw(e.queues, e.slot),
         waiting := false,
         timer := AfterInit(e.timer, setup.questionTimeSeconds),
         events := e.events + [QuestionStarted(e.current, e.slot + 1, points, force),
                               HideTimeoutChoices, ScoreboardChanged(ScoresOf(e.roster))])
  }

  /** StartNewStudentTurn(studentIndex). */
  function AfterStartNewStudentTurn(setup: Setup, e: Engine, studentIndex: int): Engine
    requires Shaped(e)
  {
    if studentIndex < 0 || studentIndex >= |e.roster| then e
    else
      AfterStartQuestion(setup, e.(current := studentIndex, slot := 0, locked := None,
                                   events := e.events + [TurnStarted(studentIndex)]), false)
  }

  /** StartTimer(). */
  function AfterStartTimer(setup: Setup, e: Engine): Engine {
    e.(timer := AfterStart(e.timer, setup.questionTimeSeconds))
  }

  /** The question handed to contestant k, with the return point pushed. */
  function Handed(e: Engine, k: int): (r: Engine)
    requires Ready(e) && 0 <= k < |e.roster|
    ensures Ready(r)
  {
    e.(stack := e.stack + [ReturnPoint(e.current, e.slot + 1)], current := k, waiting := false,
       events := e.events + [HideTimeoutChoices])
  }

  /** RedirectThisQuestionTo(newStudentIndex). */
  function AfterRedirect(setup: Setup, e: Engine, newStudentIndex: int): Engine
    requires Ready(e)
  {
    if newStudentIndex < 0 || newStudentIndex >= |e.roster| then e
    else
      var shown := AfterStartQuestion(setup, Handed(e, newStudentIndex), true);
      shown.(events := shown.events + [ShowTimeoutChoices])
  }

  /** OnChooseStar(). */
  function AfterChooseStar(e: Engine): Engine
    requires InTurn(e)
  {
    var s := e.roster[e.current];
    if s.starCount <= 0 then e
    else e.(roster := e.roster[e.current := s.(chooseStarMode := true, starCount := s.starCount - 1)],
            events := e.events + [HideChooseStar])
  }

  /** HandleTimerElapsed(). */
  function AfterTimerElapsed(e: Engine): Engine {
    if e.waiting then e else e.(waiting := true, events := e.events + [ShowTimeoutChoices])
  }

  /** Punish(pts): subtract pts, then end star mode. */
  function AfterPunish(e: Engine, pts: int): Engine
    requires InTurn(e)
  {
    var s := Added(e.roster[e.current], pts * -1);
    e.(roster := e.roster[e.current := s.(chooseStarMode := false)])
  }

  /** What an award of `pts` adds to contestant `s`: twice `pts` in star mode. */
  function Gain(s: StudentState, pts: int): int {
    pts * (if s.chooseStarMode then 2 else 1)
  }

  /** The first half of AwardAndAdvance(pts): score, events, timer stopped, lock released. */
  function AfterAward(e: Engine, pts: int): Engine
    requires InTurn(e)
  {
    var s := e.roster[e.current];
    var gained := Gain(s, pts);
    var roster := e.roster[e.current := Added(s.(chooseStarMode := false), gained)];
    e.(roster := roster,
       timer := AfterStop(e.timer),
       waiting := false,
       locked := None,
       events := e.events + (if gained > 0 then [AnswerCorrect] else []) +
                 [PointsAwarded(e.current, pts), ScoreboardChanged(ScoresOf(roster)), HideTimeoutChoices])
  }

  /** The top return point popped and its contestant and slot restored. */
  function Popped(e: Engine): (r: Engine)
    requires Ready(e) && |e.stack| > 0
    ensures Ready(r)
  {
    var back := e.stack[|e.stack| - 1];
    e.(stack := e.stack[..|e.stack| - 1], current := back.studentIndex, slot := back.nextQuestionIndex)
  }

  /**
   * The second half of AwardAndAdvance when the return stack is not empty:
   * pop the top return point and resume there.
   */
  function AfterResume(setup: Setup, e: Engine): Engine
    requires Ready(e) && |e.stack| > 0
  {
    var back := e.stack[|e.stack| - 1];
    var resumed := Popped(e);
    if back.nextQuestionIndex >= setup.points.Count() then
      var turns := e.turns + 1;
      resumed.(turns := turns,
               events := e.events + [StudentFinished(back.studentIndex)] +
                         (if turns >= |e.roster| then [EndGame(ScoresOf(e.roster))] else []))
    else
      AfterStartQuestion(setup, resumed, false)
  }

  /** The same contestant one slot on. */
  function Stepped(e: Engine): (r: Engine)
    requires Ready(e)
    ensures Ready(r)
  {
    e.(slot := e.slot + 1)
  }

  /**
   * The second half of AwardAndAdvance when the return stack is empty:
   * the same contestant moves to the next slot.
   */
  function AfterNextSlot(setup: Setup, e: Engine): Engine
    requires Ready(e)
  {
    var next := Stepped(e);
    if e.slot + 1 >= setup.points.Count() then
      var turns := e.turns + 1;
      next.(turns := turns,
            events := e.events + (if turns >= |e.roster| then [EndGame(ScoresOf(e.roster))]
                                  else [StudentFinished(e.current)]))
    else
      AfterStartQuestion(setup, next, false)
  }

  /** The second half of AwardAndAdvance. */
  function AfterAdvance(setup: Setup, e: Engine): Engine
    requires Ready(e)
  {
    if |e.stack| > 0 then AfterResume(setup, e) else AfterNextSlot(setup, e)
  }

  /** AwardAndAdvance(pts). */
  function AfterAwardAndAdvance(setup: Setup, e: Engine, pts: int): Engine
    requires Ready(e)
  {
    AfterAdvance(setup, AfterAward(e, pts))
  }

  /** TimeoutChooseOK(): award the slot's value. */
  function AfterTimeoutChooseOK(setup: Setup, e: Engine): Engine
    requires Ready(e) && e.slot < setup.points.Count()
  {
    AfterAwardAndAdvance(setup, e, setup.points.Get(e.slot))
  }

  /** SkipQuestion(): in star mode lose the slot's value first; then resolve with 0. */
  function AfterSkip(setup: Setup, e: Engine): Engine
    requires Ready(e)
    requires e.roster[e.current].chooseStarMode ==> e.slot < setup.points.Count()
  {
    var punished := if e.roster[e.current].chooseStarMode then AfterPunish(e, setup.points.Get(e.slot)) else e;
    AfterAwardAndAdvance(setup, punished, 0)
  }

  /** TimeoutChooseAnother(): hide the choices, stop the timer, punish a contestant in star mode. */
  function AfterTimeoutChooseAnother(setup: Setup, e: Engine): Engine
    requires InTurn(e) && 0 <= e.slot
    requires e.roster[e.current].chooseStarMode ==> e.slot < setup.points.Count()
  {
    var stopped := e.(waiting := false, events := e.events + [HideTimeoutChoices], timer := AfterStop(e.timer));
    if e.roster[e.current].chooseStarMode then AfterPunish(stopped, setup.points.Get(e.slot)) else stopped
  }

  /** PunishRedirect(): lose half the slot's value, truncated, then resolve with 0. */
  function AfterPunishRedirect(setup: Setup, e: Engine): Engine
    requires Ready(e) && e.slot < setup.points.Count()
  {
    var points := HalfTruncated(setup.points.Get(e.slot));
    var punished := e.(roster := e.roster[e.current := Added(e.roster[e.current], points * -1)]);
    AfterAwardAndAdvance(setup, punished, 0)
  }

  // ---------------------------------------------------------------------
  // What the game promises
  // ---------------------------------------------------------------------

  /**
   * Opening a slot inside the table always leaves a question locked (the
   * held one, the bank's next one, or the placeholder), hides the timeout
   * choices, re-arms the timer without running it and announces the slot
   * one-based with its point value. Past the table only the contestant's
   * finish is announced. Contestant, slot, stack and scores never move.
   */
  lemma StartQuestionOpensSlot(setup: Setup, e: Engine, force: bool)
    requires Ready(e)
    ensures var r := AfterStartQuestion(setup, e, force);
      r.roster == e.roster && r.current == e.current && r.slot == e.slot &&
      r.turns == e.turns && r.stack == e.stack &&
      (e.slot >= setup.points.Count() ==>
        r == e.(events := e.events + [StudentFinished(e.current)])) &&
      (e.slot < setup.points.Count() ==>
        r.locked.Some? && !r.waiting && !r.timer.running &&
        r.timer.timeLeft == ClampAtZero(setup.questionTimeSeconds) &&
        (e.locked.Some? ==> r.locked == e.locked && r.queues == e.queues) &&
        (e.locked.None? ==> r.locked == Locked(None, FrontOf(e.queues, e.slot), setup.points.Get(e.slot)) &&
                            r.queues == AfterDraw(e.queues, e.slot)) &&
        r.events == e.events + [QuestionStarted(e.current, e.slot + 1, setup.points.Get(e.slot), force),
                                HideTimeoutChoices, ScoreboardChanged(ScoresOf(e.roster))])
  {
  }

  /**
   * An index outside the roster changes nothing; otherwise the turn starts
   * at slot 0 with no question held, and TurnStarted comes before the
   * slot is opened (or the contestant reported finished for an empty table).
   */
  lemma StartNewStudentTurnEffect(setup: Setup, e: Engine, studentIndex: int)
    requires Shaped(e)
    ensures !(0 <= studentIndex < |e.roster|) ==> AfterStartNewStudentTurn(setup, e, studentIndex) == e
    ensures 0 <= studentIndex < |e.roster| ==>
      var r := AfterStartNewStudentTurn(setup, e, studentIndex);
      r.current == studentIndex && r.slot == 0 && r.turns == e.turns && r.stack == e.stack &&
      r.roster == e.roster &&
      r.events[..|e.events| + 2] == e.events + [TurnStarted(studentIndex),
        if setup.points.Count() > 0 then QuestionStarted(studentIndex, 1, setup.points.Get(0), false)
        else StudentFinished(studentIndex)] &&
      (setup.points.Count() > 0 ==> r.locked == Locked(None, FrontOf(e.queues, 0), setup.points.Get(0))) &&
      (setup.points.Count() == 0 ==> r.locked.None?)
  {
    if 0 <= studentIndex < |e.roster| {
      var started := e.(current := studentIndex, slot := 0, locked := None,
                        events := e.events + [TurnStarted(studentIndex)]);
      StartQuestionOpensSlot(setup, started, false);
    }
  }

  /**
   * Elapsed is debounced: the first one shows the timeout choices, a second
   * one while they are showing changes nothing.
   */
  lemma TimerElapsedDebounced(e: Engine)
    ensures AfterTimerElapsed(e).waiting
    ensures e.waiting ==> AfterTimerElapsed(e) == e
    ensures !e.waiting ==> AfterTimerElapsed(e).events == e.events + [ShowTimeoutChoices]
    ensures AfterTimerElapsed(AfterTimerElapsed(e)) == AfterTimerElapsed(e)
  {
  }

  /**
   * The star privilege: nothing happens without a star left; otherwise star
   * mode is on and exactly one star is spent. No one else is touched and no
   * star count goes below zero.
   */
  lemma ChooseStarSpendsOneStar(e: Engine)
    requires InTurn(e)
    ensures var r := AfterChooseStar(e);
      |r.roster| == |e.roster| &&
      (e.roster[e.current].starCount <= 0 ==> r == e) &&
      (e.roster[e.current].starCount > 0 ==>
        r.roster[e.current].chooseStarMode &&
        r.roster[e.current].starCount == e.roster[e.current].starCount - 1 &&
        r.roster[e.current].score == e.roster[e.current].score &&
        r.events == e.events + [HideChooseStar]) &&
      (forall i :: 0 <= i < |e.roster| && i != e.current ==> r.roster[i] == e.roster[i]) &&
      ((forall i :: 0 <= i < |e.roster| ==> e.roster[i].starCount >= 0) ==>
       (forall i :: 0 <= i < |r.roster| ==> r.roster[i].starCount >= 0))
  {
  }

  /** The advancing half never touches a contestant record. */
  lemma AdvanceKeepsRoster(setup: Setup, e: Engine)
    requires Ready(e)
    ensures AfterAdvance(setup, e).roster == e.roster
  {
  }

  /** The advancing half only appends to the event trace. */
  lemma AdvanceExtendsEvents(setup: Setup, e: Engine)
    requires Ready(e)
    ensures var r := AfterAdvance(setup, e);
      |r.events| >= |e.events| && r.events[..|e.events|] == e.events
  {
    if |e.stack| > 0 {
      StartQuestionOpensSlot(setup, Popped(e), false);
    } else {
      StartQuestionOpensSlot(setup, Stepped(e), false);
    }
  }

  /**
   * Awarding: the contestant gains twice `pts` in star mode, and star mode
   * ends, else `pts`; no other record changes.
   */
  lemma AwardAndAdvanceScores(setup: Setup, e: Engine, pts: int)
    requires Ready(e)
    ensures var r := AfterAwardAndAdvance(setup, e, pts);
      var s := e.roster[e.current];
      var gain := if s.chooseStarMode then 2 * pts else pts;
      |r.roster| == |e.roster| &&
      r.roster[e.current] == s.(score := s.score + gain, chooseStarMode := false) &&
      (forall i :: 0 <= i < |e.roster| && i != e.current ==> r.roster[i] == e.roster[i])
  {
    AdvanceKeepsRoster(setup, AfterAward(e, pts));
  }

  /**
   * PointsAwarded carries the raw `pts`, right after AnswerCorrect exactly
   * when the (possibly doubled) gain is positive.
   */
  lemma AwardAndAdvanceAnnounces(setup: Setup, e: Engine, pts: int)
    requires Ready(e)
    ensures var r := AfterAwardAndAdvance(setup, e, pts);
      var gain := if e.roster[e.current].chooseStarMode then 2 * pts else pts;
      var k := |e.events|;
      (gain > 0 ==> |r.events| > k + 1 && r.events[k] == AnswerCorrect && r.events[k + 1] == PointsAwarded(e.current, pts)) &&
      (gain <= 0 ==> |r.events| > k && r.events[k] == PointsAwarded(e.current, pts))
  {
    var a := AfterAward(e, pts);
    AdvanceExtendsEvents(setup, a);
    var r := AfterAdvance(setup, a);
    assert r.events[..|a.events|] == a.events;
    assert forall i :: 0 <= i < |a.events| ==> r.events[i] == a.events[i];
  }

  /**
   * After awarding the timer is stopped (and re-armed but not running if a
   * slot opens), the choices hidden and the lock released; a slot that
   * opens locks a fresh question.
   */
  lemma AwardAndAdvanceResets(setup: Setup, e: Engine, pts: int)
    requires Ready(e)
    ensures var r := AfterAwardAndAdvance(setup, e, pts);
      !r.waiting && !r.timer.running &&
      (Finishes(setup, e) ==> r.locked.None?) &&
      (!Finishes(setup, e) ==> r.locked == Locked(None, FrontOf(e.queues, r.slot), setup.points.Get(r.slot)))
  {
    var a := AfterAward(e, pts);
    if !Finishes(setup, e) {
      if |a.stack| > 0 {
        StartQuestionOpensSlot(setup, Popped(a), false);
      } else {
        StartQuestionOpensSlot(setup, Stepped(a), false);
      }
    }
  }

  /**
   * The return stack is LIFO: resolving a question pops exactly the top
   * return point and restores its contestant and slot; with an empty stack
   * the same contestant moves one slot on.
   */
  lemma AwardAndAdvancePops(setup: Setup, e: Engine, pts: int)
    requires Ready(e)
    ensures var r := AfterAwardAndAdvance(setup, e, pts);
      (|e.stack| > 0 ==>
        r.stack == e.stack[..|e.stack| - 1] &&
        r.current == e.stack[|e.stack| - 1].studentIndex &&
        r.slot == e.stack[|e.stack| - 1].nextQuestionIndex) &&
      (|e.stack| == 0 ==> r.stack == [] && r.current == e.current && r.slot == e.slot + 1)
  {
  }

  /**
   * A redirect to an index outside the roster changes nothing. Otherwise it
   * pushes (current contestant, next slot), keeps slot and held question,
   * and the next resolution pops exactly that entry: the redirecting
   * contestant resumes at the following slot with the stack as before.
   */
  lemma RedirectThenResolveResumes(setup: Setup, e: Engine, newStudentIndex: int, pts: int)
    requires Ready(e)
    ensures !(0 <= newStudentIndex < |e.roster|) ==> AfterRedirect(setup, e, newStudentIndex) == e
    ensures 0 <= newStudentIndex < |e.roster| ==>
      var d := AfterRedirect(setup, e, newStudentIndex);
      d.stack == e.stack + [ReturnPoint(e.current, e.slot + 1)] &&
      d.current == newStudentIndex && d.slot == e.slot && d.turns == e.turns &&
      (e.locked.Some? ==> d.locked == e.locked) &&
      Ready(d) &&
      var r := AfterAwardAndAdvance(setup, d, pts);
      r.stack == e.stack && r.current == e.current && r.slot == e.slot + 1 &&
      |r.stack| == |d.stack| - 1
  {
    if 0 <= newStudentIndex < |e.roster| {
      StartQuestionOpensSlot(setup, Handed(e, newStudentIndex), true);
      var d := AfterRedirect(setup, e, newStudentIndex);
      AwardAndAdvancePops(setup, d, pts);
      assert d.stack[..|d.stack| - 1] == e.stack;
    }
  }

  /**
   * Finished turns: the count never decreases and goes up by one exactly
   * when the next slot is past the table. On the pop path the finish is
   * reported before the end-of-game check; on the increment path the
   * finish is reported only when the game does not end. EndGame follows
   * every finish that brings the count to the roster size or beyond.
   */
  lemma AwardAndAdvanceCountsTurns(setup: Setup, e: Engine, pts: int)
    requires Ready(e)
    ensures var r := AfterAwardAndAdvance(setup, e, pts);
      var a := AfterAward(e, pts);
      r.turns >= e.turns &&
      r.turns == e.turns + (if Finishes(setup, e) then 1 else 0) &&
      (Finishes(setup, e) && |e.stack| > 0 ==>
        r.events == a.events + [StudentFinished(r.current)] +
                    (if r.turns >= |e.roster| then [EndGame(ScoresOf(r.roster))] else [])) &&
      (Finishes(setup, e) && |e.stack| == 0 ==>
        r.events == a.events + (if r.turns >= |e.roster| then [EndGame(ScoresOf(r.roster))]
                                else [StudentFinished(e.current)])) &&
      (!Finishes(setup, e) ==> r.events == a.events + [QuestionStarted(r.current, r.slot + 1, setup.points.Get(r.slot), false),
                                                      HideTimeoutChoices, ScoreboardChanged(ScoresOf(r.roster))])
  {
    var a := AfterAward(e, pts);
    AdvanceKeepsRoster(setup, a);
    if !Finishes(setup, e) {
      if |a.stack| > 0 {
        StartQuestionOpensSlot(setup, Popped(a), false);
      } else {
        StartQuestionOpensSlot(setup, Stepped(a), false);
      }
    }
  }

  /**
   * Skipping: in star mode the contestant loses the slot's value and star
   * mode ends; otherwise the score stays. Either way the slot is resolved
   * with zero points.
   */
  lemma SkipNetChange(setup: Setup, e: Engine)
    requires Ready(e)
    requires e.roster[e.current].chooseStarMode ==> e.slot < setup.points.Count()
    ensures var r := AfterSkip(setup, e);
      var s := e.roster[e.current];
      r.roster[e.current].score == s.score - (if s.chooseStarMode then setup.points.Get(e.slot) else 0) &&
      !r.roster[e.current].chooseStarMode &&
      r.roster[e.current].starCount == s.starCount &&
      (forall i :: 0 <= i < |e.roster| && i != e.current ==> r.roster[i] == e.roster[i])
  {
    var punished := if e.roster[e.current].chooseStarMode then AfterPunish(e, setup.points.Get(e.slot)) else e;
    AwardAndAdvanceScores(setup, punished, 0);
  }

  /** PunishRedirect costs half the slot's value, truncated, and then resolves the slot with zero points. */
  lemma PunishRedirectNetChange(setup: Setup, e: Engine)
    requires Ready(e) && e.slot < setup.points.Count()
    ensures var r := AfterPunishRedirect(setup, e);
      var s := e.roster[e.current];
      r.roster[e.current].score == s.score - HalfTruncated(setup.points.Get(e.slot)) &&
      !r.roster[e.current].chooseStarMode &&
      (forall i :: 0 <= i < |e.roster| && i != e.current ==> r.roster[i] == e.roster[i])
  {
    var points := HalfTruncated(setup.points.Get(e.slot));
    var punished := e.(roster := e.roster[e.current := Added(e.roster[e.current], points * -1)]);
    AwardAndAdvanceScores(setup, punished, 0);
  }

  /**
   * TimeoutChooseAnother costs the slot's value only in star mode, and
   * never touches the contestant, the slot, the held question or the stack.
   */
  lemma TimeoutChooseAnotherEffect(setup: Setup, e: Engine)
    requires InTurn(e) && 0 <= e.slot
    requires e.roster[e.current].chooseStarMode ==> e.slot < setup.points.Count()
    ensures var r := AfterTimeoutChooseAnother(setup, e);
      var s := e.roster[e.current];
      r.current == e.current && r.slot == e.slot && r.stack == e.stack &&
      r.locked == e.locked && r.turns == e.turns && !r.waiting && !r.timer.running &&
      r.events == e.events + [HideTimeoutChoices] &&
      r.roster[e.current].score == s.score - (if s.chooseStarMode then setup.points.Get(e.slot) else 0) &&
      !r.roster[e.current].chooseStarMode &&
      (forall i :: 0 <= i < |e.roster| && i != e.current ==> r.roster[i] == e.roster[i])
  {
  }

  // ---------------------------------------------------------------------
  // The invariant is kept by every operation
  // ---------------------------------------------------------------------

  lemma StartQuestionKeepsInv(setup: Setup, e: Engine, force: bool)
    requires Ready(e) && Inv(e)
    ensures Inv(AfterStartQuestion(setup, e, force))
  {
  }

  lemma StartNewStudentTurnKeepsInv(setup: Setup, e: Engine, studentIndex: int)
    requires Inv(e)
    ensures Inv(AfterStartNewStudentTurn(setup, e, studentIndex))
  {
  }

  lemma StartTimerKeepsInv(setup: Setup, e: Engine)
    requires Inv(e)
    ensures Inv(AfterStartTimer(setup, e))
  {
  }

  lemma RedirectKeepsInv(setup: Setup, e: Engine, newStudentIndex: int)
    requires Ready(e) && Inv(e)
    ensures Inv(AfterRedirect(setup, e, newStudentIndex))
  {
  }

  lemma ChooseStarKeepsInv(e: Engine)
    requires InTurn(e) && Inv(e)
    ensures Inv(AfterChooseStar(e))
  {
    ChooseStarSpendsOneStar(e);
  }

  lemma TimerElapsedKeepsInv(e: Engine)
    requires Inv(e)
    ensures Inv(AfterTimerElapsed(e))
  {
  }

  lemma PunishKeepsInv(e: Engine, pts: int)
    requires InTurn(e) && Inv(e)
    ensures Inv(AfterPunish(e, pts))
  {
  }

  lemma TimeoutChooseAnotherKeepsInv(setup: Setup, e: Engine)
    requires InTurn(e) && Inv(e)
    requires e.roster[e.current].chooseStarMode ==> e.slot < setup.points.Count()
    ensures Inv(AfterTimeoutChooseAnother(setup, e))
  {
  }

  lemma AwardKeepsInv(e: Engine, pts: int)
    requires InTurn(e) && Inv(e)
    ensures Inv(AfterAward(e, pts))
  {
  }

  lemma AdvanceKeepsInv(setup: Setup, e: Engine)
    requires Ready(e) && Inv(e)
    ensures Inv(AfterAdvance(setup, e))
  {
  }

  lemma AwardAndAdvanceKeepsInv(setup: Setup, e: Engine, pts: int)
    requires Ready(e) && Inv(e)
    ensures Inv(AfterAwardAndAdvance(setup, e, pts))
  {
    AwardKeepsInv(e, pts);
    AdvanceKeepsInv(setup, AfterAward(e, pts));
  }
}
