/**
 * The turn engine object (Assets/QuizGame/Systems/TurnManager.cs). Its turn
 * fields, its return stack and the contestant records change in place;
 * every method is proved to perform the transition its `After...` function
 * in module TurnRules describes, and to keep the engine's invariant.
 */
module Turns {
  import opened Optional
  import opened Points
  import opened Students
  import opened Timer
  import opened Bank
  import opened TurnRules

  class TurnManager {
    const students: seq<Student>
    const pointsConfig: PointsConfig
    const questionTimeSeconds: real
    const questionTimer: QuestionTimer
    const questionBank: QuestionBank

    var studentTurns: int
    var lockedQuestion: Option<Question>
    var currentStudent: int
    var currentQIndex: int
    var waitingTimeoutChoice: bool
    /** The return stack; its top is the last element. */
    var returnStack: seq<ReturnPoint>
    /** The engine's C# events, in firing order. */
    ghost var events: seq<Event>

    function Setup(): Setup {
      TurnRules.Setup(pointsConfig, questionTimeSeconds)
    }

    /** The contestant records' current values, in roster order. */
    function Roster(): (r: seq<StudentState>)
      reads students
      ensures |r| == |students|
      ensures forall i :: 0 <= i < |students| ==> r[i] == students[i].View()
    {
      seq(|students|, i requires 0 <= i < |students| reads students => students[i].View())
    }

    ghost function State(): Engine
      reads this, students, questionTimer, questionBank
    {
      Engine(Roster(), currentStudent, currentQIndex, lockedQuestion, waitingTimeoutChoice,
             studentTurns, returnStack, events, questionTimer.State(), questionBank.queues)
    }

    /** Distinct contestant records, the engine invariant, a consistent timer and bank. */
    ghost predicate Valid()
      reads this, students, questionTimer, questionBank
    {
      (forall i, j :: 0 <= i < j < |students| ==> students[i] != students[j]) &&
      Inv(State()) && questionTimer.Valid() && questionBank.Valid()
    }

    /** A contestant's turn is under way. */
    predicate InTurn()
      reads this
    {
      0 <= currentStudent < |students|
    }

    /**
     * The engine as the scene sets it up: one fresh record per configured
     * name, then what Awake does to the bank (build the queues, then set the
     * flag) and the first scoreboard notification. Subscribing to the
     * timer's Elapsed event is modelled by callers invoking HandleTimerElapsed.
     */
    constructor (names: seq<string>, pointsConfig: PointsConfig, questionTimeSeconds: real,
                 timer: QuestionTimer, bank: QuestionBank, draws: seq<seq<int>>)
      requires timer.Valid() && bank.Valid()
      requires |draws| == TierCount
      requires forall k :: 0 <= k < TierCount ==> IsOracle(draws[k], |Elements(bank.tiers[k])|)
      modifies bank
      ensures forall i :: 0 <= i < |students| ==> fresh(students[i])
      ensures this.pointsConfig == pointsConfig && this.questionTimeSeconds == questionTimeSeconds
      ensures questionTimer == timer && questionBank == bank
      ensures State() == Engine(seq(|names|, i requires 0 <= i < |names| => StudentState(names[i], 0, false, 1)),
                                -1, 0, None, false, 0, [], [ScoreboardChanged(seq(|names|, _ => 0))],
                                old(timer.State()), bank.queues)
      ensures Valid()
      ensures bank.initialized
      ensures old(bank.initialized) ==>
        bank.queues == old(bank.queues) && bank.taken == old(bank.taken) && bank.loaded == old(bank.loaded)
      ensures !old(bank.initialized) ==> forall k :: 0 <= k < TierCount ==>
        bank.queues[k].Some? && bank.taken[k] == [] &&
        multiset(bank.queues[k].value) == multiset(Elements(bank.tiers[k]))
    {
      var roster := NewStudents(names);
      students := roster;
      this.pointsConfig := pointsConfig;
      this.questionTimeSeconds := questionTimeSeconds;
      questionTimer := timer;
      questionBank := bank;
      studentTurns := 0;
      lockedQuestion := None;
      currentStudent := -1;
      currentQIndex := 0;
      waitingTimeoutChoice := false;
      returnStack := [];
      new;
      bank.InitIfNeeded(draws);
      bank.initialized := true;
      assert ScoresOf(Roster()) == seq(|names|, _ => 0);
      events := [ScoreboardChanged(ScoresOf(Roster()))];
      assert Roster() == seq(|names|, i requires 0 <= i < |names| => StudentState(names[i], 0, false, 1));
    }

    /** One fresh contestant record per name, in order. */
    static method NewStudents(names: seq<string>) returns (roster: seq<Student>)
      ensures |roster| == |names|
      ensures forall j :: 0 <= j < |names| ==> fresh(roster[j]) && roster[j].View() == StudentState(names[j], 0, false, 1)
      ensures forall j, k :: 0 <= j < k < |names| ==> roster[j] != roster[k]
    {
      roster := [];
      var i := 0;
      while i < |names|
        invariant 0 <= i <= |names| && |roster| == i
        invariant forall j :: 0 <= j < i ==> fresh(roster[j]) && roster[j].View() == StudentState(names[j], 0, false, 1)
        invariant forall j, k :: 0 <= j < k < i ==> roster[j] != roster[k]
      {
        var s := new Student(names[i]);
        roster := roster + [s];
        i := i + 1;
      }
    }

    /** Opens a turn for contestant `studentIndex`; an index outside the roster changes nothing. */
    method StartNewStudentTurn(studentIndex: int)
      requires Valid()
      modifies this`currentStudent, this`currentQIndex, this`lockedQuestion, this`waitingTimeoutChoice,
               this`events, questionTimer, questionBank`queues, questionBank`taken
      ensures State() == AfterStartNewStudentTurn(Setup(), old(State()), studentIndex)
      ensures Valid()
    {
      if studentIndex < 0 || studentIndex >= |students| {
        return;
      }
      currentStudent := studentIndex;
      currentQIndex := 0;
      lockedQuestion := None;
      events := events + [TurnStarted(currentStudent)];
      StartQuestion(false);
    }

    /** The host starts the countdown for the open question. */
    method StartTimer()
      requires Valid()
      modifies questionTimer
      ensures State() == AfterStartTimer(Setup(), old(State()))
      ensures Valid()
    {
      questionTimer.StartTimer(questionTimeSeconds);
    }

    /**
     * Hands the open question to contestant `newStudentIndex`, remembering
     * where the current contestant resumes; an index outside the roster
     * changes nothing.
     */
    method RedirectThisQuestionTo(newStudentIndex: int)
      requires Valid() && InTurn()
      modifies this`returnStack, this`currentStudent, this`lockedQuestion, this`waitingTimeoutChoice,
               this`events, questionTimer, questionBank`queues, questionBank`taken
      ensures State() == AfterRedirect(Setup(), old(State()), newStudentIndex)
      ensures Valid()
    {
      if newStudentIndex < 0 || newStudentIndex >= |students| {
        return;
      }
      var ret := ReturnPoint(currentStudent, currentQIndex + 1);
      returnStack := returnStack + [ret];
      currentStudent := newStudentIndex;
      waitingTimeoutChoice := false;
      events := events + [HideTimeoutChoices];
      assert State() == Handed(old(State()), newStudentIndex);
      StartQuestion(true);
      events := events + [ShowTimeoutChoices];
    }

    /** Spends one star privilege of the current contestant on star mode, if one is left. */
    method OnChooseStar()
      requires Valid() && InTurn()
      modifies this`events, students[currentStudent]
      ensures State() == AfterChooseStar(old(State()))
      ensures Valid()
    {
      var s := students[currentStudent];
      if s.starCount <= 0 {
        return;
      }
      s.chooseStarMode := true;
      s.starCount := s.starCount - 1;
      events := events + [HideChooseStar];
      assert Roster() == old(Roster())[currentStudent := s.View()];
    }

    /** After a timeout the host awards the slot's points. */
    method TimeoutChooseOK()
      requires Valid() && InTurn() && currentQIndex < pointsConfig.Count()
      modifies this`studentTurns, this`lockedQuestion, this`currentStudent, this`currentQIndex,
               this`waitingTimeoutChoice, this`returnStack, this`events,
               students[currentStudent], questionTimer, questionBank`queues, questionBank`taken
      ensures State() == AfterTimeoutChooseOK(Setup(), old(State()))
      ensures Valid()
    {
      AwardAndAdvance(pointsConfig.Get(currentQIndex));
    }

    /** Skips the slot: in star mode the contestant first loses its value; then it is resolved with 0. */
    method SkipQuestion()
      requires Valid() && InTurn()
      requires students[currentStudent].chooseStarMode ==> currentQIndex < pointsConfig.Count()
      modifies this`studentTurns, this`lockedQuestion, this`currentStudent, this`currentQIndex,
               this`waitingTimeoutChoice, this`returnStack, this`events,
               students[currentStudent], questionTimer, questionBank`queues, questionBank`taken
      ensures State() == AfterSkip(Setup(), old(State()))
      ensures Valid()
    {
      if students[currentStudent].chooseStarMode {
        Punish(pointsConfig.Get(currentQIndex));
      }
      AwardAndAdvance(0);
    }

    /**
     * The host gives the question to someone else: choices hidden, timer
     * stopped, and a contestant in star mode loses the slot's value.
     */
    method TimeoutChooseAnother()
      requires Valid() && InTurn()
      requires students[currentStudent].chooseStarMode ==> currentQIndex < pointsConfig.Count()
      modifies this`waitingTimeoutChoice, this`events, students[currentStudent], questionTimer
      ensures State() == AfterTimeoutChooseAnother(Setup(), old(State()))
      ensures Valid()
    {
      waitingTimeoutChoice := false;
      events := events + [HideTimeoutChoices];
      questionTimer.StopTimer();
      if students[currentStudent].chooseStarMode {
        Punish(pointsConfig.Get(currentQIndex));
      }
    }

    /**
     * Opens the current slot: past the last slot it only reports the
     * contestant finished; otherwise it keeps or draws the slot's question,
     * announces it, hides the timeout choices and re-arms the timer.
     */
    method StartQuestion(force: bool)
      requires Valid() && InTurn()
      modifies this`lockedQuestion, this`waitingTimeoutChoice, this`events, questionTimer, questionBank`queues, questionBank`taken
      ensures State() == AfterStartQuestion(Setup(), old(State()), force)
      ensures Valid()
    {
      if currentQIndex >= pointsConfig.Count() {
        events := events + [StudentFinished(currentStudent)];
        return;
      }
      OpenSlot(force);
    }

    /** StartQuestion for a slot inside the table: lock its question, announce it, re-arm the timer. */
    method OpenSlot(force: bool)
      requires Valid() && InTurn() && currentQIndex < pointsConfig.Count()
      modifies this`lockedQuestion, this`waitingTimeoutChoice, this`events, questionTimer, questionBank`queues, questionBank`taken
      ensures State() == AfterStartQuestion(Setup(), old(State()), force)
      ensures Valid()
    {
      var points := pointsConfig.Get(currentQIndex);
      ghost var announced := [QuestionStarted(currentStudent, currentQIndex + 1, points, force),
                              HideTimeoutChoices, ScoreboardChanged(ScoresOf(Roster()))];
      LockQuestion(points);
      waitingTimeoutChoice := false;
      questionTimer.InitTimer(questionTimeSeconds);
      events := events + announced;
    }

    /**
     * Keeps the question locked to the slot, or locks the bank's next one
     * for the slot's tier, or a placeholder when the tier has none left.
     */
    method LockQuestion(points: int)
      requires questionBank.Consistent() && 0 <= currentQIndex
      modifies this`lockedQuestion, questionBank`queues, questionBank`taken
      ensures questionBank.Consistent() && questionBank.initialized == old(questionBank.initialized)
      ensures old(questionBank.Permuted()) ==> questionBank.Permuted()
      ensures lockedQuestion == Locked(old(lockedQuestion), FrontOf(old(questionBank.queues), currentQIndex), points)
      ensures questionBank.queues ==
        if old(lockedQuestion).Some? then old(questionBank.queues) else AfterDraw(old(questionBank.queues), currentQIndex)
    {
      if lockedQuestion.None? {
        lockedQuestion := questionBank.NextForPoints(currentQIndex);
        if lockedQuestion.None? {
          lockedQuestion := Some(Placeholder(points));
        }
      }
    }

    /** The timer's Elapsed notification: shows the timeout choices unless they are showing. */
    method HandleTimerElapsed()
      requires Valid()
      modifies this`waitingTimeoutChoice, this`events
      ensures State() == AfterTimerElapsed(old(State()))
      ensures Valid()
    {
      if waitingTimeoutChoice {
        return;
      }
      waitingTimeoutChoice := true;
      events := events + [ShowTimeoutChoices];
    }

    /** Takes `pts` off the current contestant and ends star mode. */
    method Punish(pts: int)
      requires Valid() && InTurn()
      modifies students[currentStudent]
      ensures State() == AfterPunish(old(State()), pts)
      ensures Valid()
    {
      var student := students[currentStudent];
      var multiplier := -1;
      student.AddScore(pts * multiplier);
      if student.chooseStarMode {
        student.chooseStarMode := false;
      }
      assert Roster() == old(Roster())[currentStudent := student.View()];
    }

    /** A wrong answer after a redirect: half the slot's value, truncated, is lost; then it is resolved with 0. */
    method PunishRedirect()
      requires Valid() && InTurn() && currentQIndex < pointsConfig.Count()
      modifies this`studentTurns, this`lockedQuestion, this`currentStudent, this`currentQIndex,
               this`waitingTimeoutChoice, this`returnStack, this`events,
               students[currentStudent], questionTimer, questionBank`queues, questionBank`taken
      ensures State() == AfterPunishRedirect(Setup(), old(State()))
      ensures Valid()
    {
      var student := students[currentStudent];
      var multiplier := -1;
      var points := HalfTruncated(pointsConfig.Get(currentQIndex));
      student.AddScore(points * multiplier);
      assert Roster() == old(Roster())[currentStudent := student.View()];
      AwardAndAdvance(0);
    }

    /**
     * The central transition: award `pts` (doubled in star mode), then
     * resume from the top return point or move to the next slot.
     */
    method AwardAndAdvance(pts: int)
      requires Valid() && InTurn()
      modifies this`studentTurns, this`lockedQuestion, this`currentStudent, this`currentQIndex,
               this`waitingTimeoutChoice, this`returnStack, this`events,
               students[currentStudent], questionTimer, questionBank`queues, questionBank`taken
      ensures State() == AfterAwardAndAdvance(Setup(), old(State()), pts)
      ensures Valid()
    {
      Award(pts);
      Advance();
    }

    /** The scoring half of AwardAndAdvance. */
    method Award(pts: int)
      requires Valid() && InTurn()
      modifies this`lockedQuestion, this`waitingTimeoutChoice, this`events, students[currentStudent], questionTimer
      ensures State() == AfterAward(old(State()), pts)
      ensures Valid() && InTurn()
    {
      ghost var e0 := State();
      var gained := ScoreCurrent(pts);
      var scores := ScoresOf(Roster());
      questionTimer.StopTimer();
      waitingTimeoutChoice := false;
      lockedQuestion := None;
      events := events + (if gained > 0 then [AnswerCorrect] else []) +
                [PointsAwarded(currentStudent, pts), ScoreboardChanged(scores), HideTimeoutChoices];
      ghost var a := AfterAward(e0, pts);
      assert Roster() == a.roster;
      assert events == a.events;
      assert questionTimer.State() == a.timer;
      assert State() == a;
    }

    /** The current contestant's side of an award: star mode doubles `pts` and ends. */
    method ScoreCurrent(pts: int) returns (gained: int)
      requires Valid() && InTurn()
      modifies students[currentStudent]
      ensures gained == Gain(old(Roster()[currentStudent]), pts)
      ensures Roster() == old(Roster())[currentStudent := Added(old(Roster()[currentStudent]).(chooseStarMode := false), gained)]
    {
      var student := students[currentStudent];
      var multiplier;
      if student.chooseStarMode {
        multiplier := 2;
        student.chooseStarMode := false;
      } else {
        multiplier := 1;
      }
      gained := pts * multiplier;
      student.AddScore(gained);
    }

    /** The advancing half of AwardAndAdvance. */
    method Advance()
      requires Valid() && InTurn()
      modifies this`studentTurns, this`lockedQuestion, this`currentStudent, this`currentQIndex,
               this`waitingTimeoutChoice, this`returnStack, this`events, questionTimer, questionBank`queues, questionBank`taken
      ensures State() == AfterAdvance(Setup(), old(State()))
      ensures Valid()
    {
      if |returnStack| > 0 {
        Resume();
        return;
      }
      NextSlot();
    }

    /** Resumes from the top return point. */
    method Resume()
      requires Valid() && InTurn() && |returnStack| > 0
      modifies this`studentTurns, this`lockedQuestion, this`currentStudent, this`currentQIndex,
               this`waitingTimeoutChoice, this`returnStack, this`events, questionTimer, questionBank`queues, questionBank`taken
      ensures State() == AfterResume(Setup(), old(State()))
      ensures Valid()
    {
      PopReturnPoint();
      if currentQIndex >= pointsConfig.Count() {
        studentTurns := studentTurns + 1;
        events := events + [StudentFinished(currentStudent)] +
                  (if studentTurns >= |students| then [EndGame(ScoresOf(Roster()))] else []);
      } else {
        StartQuestion(false);
      }
    }

    /** Pops the top return point and restores its contestant and slot. */
    method PopReturnPoint()
      requires Valid() && InTurn() && |returnStack| > 0
      modifies this`currentStudent, this`currentQIndex, this`returnStack
      ensures State() == Popped(old(State()))
      ensures Valid() && InTurn()
    {
      var back := returnStack[|returnStack| - 1];
      returnStack := returnStack[..|returnStack| - 1];
      currentStudent := back.studentIndex;
      currentQIndex := back.nextQuestionIndex;
    }

    /** Moves the same contestant to the next slot. */
    method NextSlot()
      requires Valid() && InTurn()
      modifies this`studentTurns, this`lockedQuestion, this`currentQIndex,
               this`waitingTimeoutChoice, this`events, questionTimer, questionBank`queues, questionBank`taken
      ensures State() == AfterNextSlot(Setup(), old(State()))
      ensures Valid()
    {
      var student := currentStudent;
      currentQIndex := currentQIndex + 1;
      assert State() == Stepped(old(State()));
      if currentQIndex >= pointsConfig.Count() {
        studentTurns := studentTurns + 1;
        events := events + (if studentTurns >= |students| then [EndGame(ScoresOf(Roster()))]
                            else [StudentFinished(student)]);
      } else {
        StartQuestion(false);
      }
    }
  }
}
