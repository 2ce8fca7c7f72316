# Quiz game turn engine in Dafny

This project models the core of a Unity classroom quiz game. Contestants take
turns of five question slots. Each slot is worth the points of a points table.
The host can:

- award the slot;
- skip it;
- hand the question to another contestant ("Another");
- punish a wrong answer.

A contestant may spend a one-time star privilege to double the next award. A
redirected question returns to the redirecting contestant through a LIFO stack
of return points. A countdown timer runs per question. Questions are drawn
without repetition from five shuffled tier queues.

The model follows the program's own structure, one module per source file:

| module | source | form |
|---|---|---|
| `Points` (points.dfy) | `PointConfig.cs` | a datatype with `Count`, `Get` and the default table |
| `Students` (student.dfy) | `Student.cs` | class `Student`, updated in place; `StudentState` is its value at one moment |
| `Timer` (timer.dfy) | `QuestionTimer.cs` | class `QuestionTimer` with two fields and a ghost event trace; `TimerState` and the `After...` functions say what each operation does |
| `Bank` (bank.dfy) | `QuestionBank.cs` | class `QuestionBank` with five queues; `Shuffle` is Fisher–Yates over an array; `Random.Range` is an oracle sequence |
| `TurnRules` (turn_rules.dfy) | `TurnManager.cs` | the turn engine on values: an `Engine` snapshot, one `After...` transition per operation, and the game's properties as lemmas |
| `Turns` (turns.dfy) | `TurnManager.cs` | class `TurnManager`, whose methods update the turn fields, the return stack and the `Student` objects in place |

Each public `TurnManager` operation is proved to perform its `TurnRules` transition:
`State() == After<Op>(Setup(), old(State()), ...)`. It is also proved to keep
the object invariant `Valid()`, which contains the engine invariant
`TurnRules.Inv`. The properties the game promises are then proved once, as
lemmas about the transitions. The C# events are recorded in firing order in a
ghost trace of an `Event` datatype. The timer keeps a trace of its own events.

## Model

| member | source | states |
|---|---|---|
| Points.PointsConfig.Count | Assets/QuizGame/Models/PointConfig.cs:11 | the slot count is the array length, 0 for a null array, and never negative |
| Points.PointsConfig.Get | Assets/QuizGame/Models/PointConfig.cs:12 | callable only for an existing slot (`0 <= i < Count()`); the value comes from the table |
| Points.DefaultTable | Assets/QuizGame/Models/PointConfig.cs:8-9 | the default table has five slots, is strictly increasing, and every value is positive |
| Points.DefaultTableValues | Assets/QuizGame/Models/PointConfig.cs:9 | slot i of the default table is worth 5·(i+1) |
| Students.Student.constructor | Assets/QuizGame/Models/Student.cs:11-18 | a new contestant has the given name, score 0, star mode off and one star |
| Students.Student.AddScore | Assets/QuizGame/Models/Student.cs:20 | the record after the call is `Added(old record, pts)` |
| Students.Added | Assets/QuizGame/Models/Student.cs:20 | the score moves by exactly the signed `pts`; name, star mode and star count do not change |
| Students.AddedTwice | Assets/QuizGame/Models/Student.cs:20 | adding a and then b is the same as adding a + b |
| Students.ScoresOf | Assets/QuizGame/Systems/TurnManager.cs:232 | the scoreboard payload has one score per contestant, in roster order |
| Timer.ClampAtZero | Assets/QuizGame/Systems/QuestionTimer.cs:49 | the result is never negative, equals a non-negative input, and is 0 for a negative input |
| Timer.StartAndInitEffect | Assets/QuizGame/Systems/QuestionTimer.cs:47-60 | StartTimer runs from the clamped time and fires Started and then Tick; InitTimer sets the same time, does not run, and fires only Tick, so the count of Elapsed since the last start is unchanged |
| Timer.UpdateElapsesAtZero | Assets/QuizGame/Systems/QuestionTimer.cs:31-45 | a frame while stopped changes nothing; a running frame fires Tick with the new time; it also fires Elapsed and stops the timer if and only if the time reached 0 |
| Timer.StopTwice | Assets/QuizGame/Systems/QuestionTimer.cs:62-67 | a stop leaves the timer stopped, and a second stop fires nothing |
| Timer.TimerInvPreserved | Assets/QuizGame/Systems/QuestionTimer.cs:31-67 | every operation keeps the time non-negative and keeps at most one Elapsed since the last Started, with none while running |
| Timer.QuestionTimer.constructor | Assets/QuizGame/Systems/QuestionTimer.cs:23-24 | a new timer has 0 seconds left, is not running, has fired nothing, and satisfies the timer invariant |
| Timer.QuestionTimer.Update | Assets/QuizGame/Systems/QuestionTimer.cs:31-45 | the new state is `AfterUpdate(old state, deltaTime)`, and the timer invariant holds |
| Timer.QuestionTimer.StartTimer | Assets/QuizGame/Systems/QuestionTimer.cs:47-53 | the new state is `AfterStart(old state, seconds)`, and the timer invariant holds |
| Timer.QuestionTimer.InitTimer | Assets/QuizGame/Systems/QuestionTimer.cs:55-60 | the new state is `AfterInit(old state, seconds)`, and the timer invariant holds |
| Timer.QuestionTimer.StopTimer | Assets/QuizGame/Systems/QuestionTimer.cs:62-67 | the new state is `AfterStop(old state)`, and the timer invariant holds |
| Bank.Shuffle | Assets/QuizGame/Models/QuestionBank.cs:58-69 | given swap indices with `0 <= j <= i`, the result has the input's length and multiset (a permutation); a null list gives an empty result |
| Bank.DequeueSafe | Assets/QuizGame/Models/QuestionBank.cs:56 | returns nothing and leaves the queue as it was exactly when the queue is null or empty; otherwise it returns the front and the queue loses exactly that element |
| Bank.PermutationKeepsDistinct | Assets/QuizGame/Models/QuestionBank.cs:58-69 | a shuffle of a tier without duplicates has no duplicates |
| Bank.DrawsNeverRepeat | Assets/QuizGame/Models/QuestionBank.cs:35-39 | the questions drawn from a tier without duplicates are pairwise distinct, and each belongs to the tier |
| Bank.ExhaustedAfterTierSize | Assets/QuizGame/Models/QuestionBank.cs:35-39 | after as many draws as the tier holds, the queue is empty, so every later draw returns nothing |
| Bank.QuestionBank.constructor | Assets/QuizGame/Models/QuestionBank.cs:16-29 | a bank loaded from its asset holds the given five tier lists, has no queue built, has its flag clear, and is valid |
| Bank.QuestionBank.InitIfNeeded | Assets/QuizGame/Models/QuestionBank.cs:31-40 | with the flag set, nothing changes; otherwise every queue holds exactly its tier's questions and nothing has been drawn; the flag itself is never set |
| Bank.QuestionBank.LoadTier | Assets/QuizGame/Models/QuestionBank.cs:35-39 | queue k is rebuilt from a fresh shuffle and the other queues are untouched |
| Bank.QuestionBank.NextForPoints | Assets/QuizGame/Models/QuestionBank.cs:43-54 | for a level outside 0..4 it returns nothing and no queue changes; otherwise only that level's queue can change; a draw returns the next question of the tier's shuffle, the queue shrinks by one, and the permutation invariant is kept |
| TurnRules.HalfTruncated | Assets/QuizGame/Systems/TurnManager.cs:212 | C# division by two: the result is within one of half the value, rounded toward zero |
| TurnRules.Locked | Assets/QuizGame/Systems/TurnManager.cs:168-177 | a question is always held: the one already locked, else the bank's draw, else the placeholder for the slot's points |
| TurnRules.StartQuestionOpensSlot | Assets/QuizGame/Systems/TurnManager.cs:156-187 | past the table only StudentFinished is fired; inside it a question is held, the waiting flag is false, the timer is re-armed but stopped, and QuestionStarted carries slot+1 and the slot's points; contestant, slot, stack and scores do not move |
| TurnRules.StartNewStudentTurnEffect | Assets/QuizGame/Systems/TurnManager.cs:89-98 | an index outside the roster changes nothing; otherwise the turn starts at slot 0 with no held question, and TurnStarted fires before the slot opens |
| TurnRules.TimerElapsedDebounced | Assets/QuizGame/Systems/TurnManager.cs:190-195 | the first Elapsed shows the choices; a second one while they show changes nothing, so applying it twice equals applying it once |
| TurnRules.ChooseStarSpendsOneStar | Assets/QuizGame/Systems/TurnManager.cs:125-131 | with no star left nothing happens; otherwise star mode turns on and exactly one star is spent; no other record changes, and star counts stay non-negative |
| TurnRules.AdvanceKeepsRoster | Assets/QuizGame/Systems/TurnManager.cs:241-278 | the advancing half of AwardAndAdvance never touches a contestant record |
| TurnRules.AdvanceExtendsEvents | Assets/QuizGame/Systems/TurnManager.cs:241-278 | the advancing half only appends events |
| TurnRules.AwardAndAdvanceScores | Assets/QuizGame/Systems/TurnManager.cs:218-230 | the current contestant gains 2·pts in star mode and pts otherwise; star mode ends; no other record changes |
| TurnRules.AwardAndAdvanceAnnounces | Assets/QuizGame/Systems/TurnManager.cs:227-231 | PointsAwarded carries the un-multiplied pts; AnswerCorrect comes right before it exactly when the gain is positive |
| TurnRules.AwardAndAdvanceResets | Assets/QuizGame/Systems/TurnManager.cs:234-239 | afterwards the timer is stopped and the waiting flag is cleared; the lock is released, or refilled from the bank if the next slot opens |
| TurnRules.AwardAndAdvancePops | Assets/QuizGame/Systems/TurnManager.cs:241-264 | with a non-empty stack exactly the top return point is popped and its contestant and slot are restored; otherwise the same contestant moves one slot on |
| TurnRules.RedirectThenResolveResumes | Assets/QuizGame/Systems/TurnManager.cs:106-123 | an index outside the roster changes nothing; otherwise (current, slot+1) is pushed, slot and held question stay, and the next resolution pops exactly that entry, leaving the stack one shorter |
| TurnRules.AwardAndAdvanceCountsTurns | Assets/QuizGame/Systems/TurnManager.cs:247-273 | finished turns never decrease and rise by one exactly when the next slot is past the table; on the pop path StudentFinished fires before the end check; on the increment path it fires only when the game does not end; EndGame fires whenever the count reaches the roster size or more |
| TurnRules.SkipNetChange | Assets/QuizGame/Systems/TurnManager.cs:138-143 | in star mode the net change is minus the slot's value and star mode ends; otherwise the score stays; stars and other records are unchanged |
| TurnRules.PunishRedirectNetChange | Assets/QuizGame/Systems/TurnManager.cs:208-216 | the contestant loses half the slot's value, truncated, and nothing more; star mode ends; other records are unchanged |
| TurnRules.TimeoutChooseAnotherEffect | Assets/QuizGame/Systems/TurnManager.cs:145-152 | the slot's value is deducted only in star mode; contestant, slot, held question, stack and turn count do not change; the timer stops and the choices hide |
| TurnRules.StartQuestionKeepsInv | Assets/QuizGame/Systems/TurnManager.cs:156-187 | opening a slot keeps the engine invariant |
| TurnRules.StartNewStudentTurnKeepsInv | Assets/QuizGame/Systems/TurnManager.cs:89-98 | starting a turn keeps the engine invariant |
| TurnRules.StartTimerKeepsInv | Assets/QuizGame/Systems/TurnManager.cs:100-103 | starting the timer keeps the engine invariant |
| TurnRules.RedirectKeepsInv | Assets/QuizGame/Systems/TurnManager.cs:106-123 | a redirect keeps the engine invariant, so every pushed return point names a contestant |
| TurnRules.ChooseStarKeepsInv | Assets/QuizGame/Systems/TurnManager.cs:125-131 | spending a star keeps every star count non-negative |
| TurnRules.TimerElapsedKeepsInv | Assets/QuizGame/Systems/TurnManager.cs:190-195 | the Elapsed handler keeps the engine invariant |
| TurnRules.PunishKeepsInv | Assets/QuizGame/Systems/TurnManager.cs:197-206 | a punishment keeps the engine invariant |
| TurnRules.TimeoutChooseAnotherKeepsInv | Assets/QuizGame/Systems/TurnManager.cs:145-152 | TimeoutChooseAnother keeps the engine invariant |
| TurnRules.AwardKeepsInv | Assets/QuizGame/Systems/TurnManager.cs:218-239 | the scoring half of AwardAndAdvance keeps the engine invariant |
| TurnRules.AdvanceKeepsInv | Assets/QuizGame/Systems/TurnManager.cs:241-278 | popping or moving on keeps the engine invariant: the restored contestant is in the roster and the slot is non-negative |
| TurnRules.AwardAndAdvanceKeepsInv | Assets/QuizGame/Systems/TurnManager.cs:218-279 | AwardAndAdvance keeps the engine invariant |
| Turns.TurnManager.constructor | Assets/QuizGame/Systems/TurnManager.cs:34-77 | one fresh record per name as a new contestant; no turn; slot 0; empty stack; the bank's flag set, and every queue built as a permutation of its tier if the flag was not yet set; one ScoreboardChanged event with all-zero scores; the object invariant holds; with the flag already set, the bank's queues and draws are left as they were |
| Turns.TurnManager.NewStudents | Assets/QuizGame/Systems/TurnManager.cs:34-42 | one fresh, distinct record per name, each as a new contestant |
| Turns.TurnManager.StartNewStudentTurn | Assets/QuizGame/Systems/TurnManager.cs:89-98 | performs `AfterStartNewStudentTurn` and keeps the invariant; of the bank only the queues and the draw record can change, so its flag stays as it was |
| Turns.TurnManager.StartTimer | Assets/QuizGame/Systems/TurnManager.cs:100-103 | performs `AfterStartTimer` and keeps the invariant |
| Turns.TurnManager.RedirectThisQuestionTo | Assets/QuizGame/Systems/TurnManager.cs:106-123 | performs `AfterRedirect` and keeps the invariant; of the bank only the queues and the draw record can change, so its flag stays as it was |
| Turns.TurnManager.OnChooseStar | Assets/QuizGame/Systems/TurnManager.cs:125-131 | performs `AfterChooseStar` and keeps the invariant |
| Turns.TurnManager.TimeoutChooseOK | Assets/QuizGame/Systems/TurnManager.cs:133-136 | performs `AfterTimeoutChooseOK`, which awards the slot's value, and keeps the invariant; of the bank only the queues and the draw record can change, so its flag stays as it was |
| Turns.TurnManager.SkipQuestion | Assets/QuizGame/Systems/TurnManager.cs:138-143 | performs `AfterSkip` and keeps the invariant; of the bank only the queues and the draw record can change, so its flag stays as it was |
| Turns.TurnManager.TimeoutChooseAnother | Assets/QuizGame/Systems/TurnManager.cs:145-152 | performs `AfterTimeoutChooseAnother` and keeps the invariant |
| Turns.TurnManager.StartQuestion | Assets/QuizGame/Systems/TurnManager.cs:156-187 | performs `AfterStartQuestion` and keeps the invariant; of the bank only the queues and the draw record can change, so its flag stays as it was |
| Turns.TurnManager.OpenSlot | Assets/QuizGame/Systems/TurnManager.cs:165-186 | for a slot inside the table, performs `AfterStartQuestion` and keeps the invariant; of the bank only the queues and the draw record can change, so its flag stays as it was |
| Turns.TurnManager.LockQuestion | Assets/QuizGame/Systems/TurnManager.cs:168-177 | a held question stays and the bank is untouched; otherwise the bank's next question for the slot, or the placeholder, is locked, and the bank draws from that tier; the bank stays consistent and keeps its permutation invariant |
| Turns.TurnManager.HandleTimerElapsed | Assets/QuizGame/Systems/TurnManager.cs:190-195 | performs `AfterTimerElapsed` and keeps the invariant |
| Turns.TurnManager.Punish | Assets/QuizGame/Systems/TurnManager.cs:197-206 | performs `AfterPunish` and keeps the invariant |
| Turns.TurnManager.PunishRedirect | Assets/QuizGame/Systems/TurnManager.cs:208-216 | performs `AfterPunishRedirect` and keeps the invariant; of the bank only the queues and the draw record can change, so its flag stays as it was |
| Turns.TurnManager.AwardAndAdvance | Assets/QuizGame/Systems/TurnManager.cs:218-279 | performs `AfterAwardAndAdvance` and keeps the invariant; of the bank only the queues and the draw record can change, so its flag stays as it was |
| Turns.TurnManager.Award | Assets/QuizGame/Systems/TurnManager.cs:220-239 | performs `AfterAward`, and the turn stays active |
| Turns.TurnManager.ScoreCurrent | Assets/QuizGame/Systems/TurnManager.cs:220-230 | returns the gain (pts, doubled in star mode); the current record ends star mode and gains it; no other record changes |
| Turns.TurnManager.Advance | Assets/QuizGame/Systems/TurnManager.cs:241-278 | performs `AfterAdvance` and keeps the invariant; of the bank only the queues and the draw record can change, so its flag stays as it was |
| Turns.TurnManager.Resume | Assets/QuizGame/Systems/TurnManager.cs:241-262 | performs `AfterResume` and keeps the invariant; of the bank only the queues and the draw record can change, so its flag stays as it was |
| Turns.TurnManager.PopReturnPoint | Assets/QuizGame/Systems/TurnManager.cs:243-245 | performs `Popped`: the top return point is removed and its contestant and slot restored |
| Turns.TurnManager.NextSlot | Assets/QuizGame/Systems/TurnManager.cs:264-278 | performs `AfterNextSlot` and keeps the invariant; of the bank only the queues and the draw record can change, so its flag stays as it was |

## Left out

- UI, widgets, audio and `Debug.Log` are not part of this model. The event trace records what the UI would be told.
- The Unity lifecycle is not modelled. The constructor plays the part of `Awake`. The `OnElapsed` subscription (and `OnDestroy`'s unsubscription) is modelled by callers invoking `HandleTimerElapsed` directly.
- `RemoveStudent` is a setup-time list edit driven by the name-entry screen. It is not modelled, because play starts from a fixed roster.
- The `multiplier` field is reassigned before every use. It is modelled as a local.
- The timer and bank references are taken as non-null. `Awake` dereferences the bank unconditionally. The null-conditional timer calls are not modelled for a missing timer.
- Every operation that reads `students[_currentStudent]` requires an active turn (`0 <= currentStudent < |students|`). The C# code would throw an index exception there. `RedirectThisQuestionTo` requires one too: without a turn it pushes a return point for contestant -1, which fails when it is popped.
- Calls to `PointsConfig.Get` with an index past the table require the slot to exist: in `TimeoutChooseOK`, in `PunishRedirect`, and in star-mode `SkipQuestion` and `TimeoutChooseAnother`. The C# code would throw.
- `autoStart`, `initialSeconds` and the empty `Start` of the timer are unused, so they are not modelled.
- C# `int` overflow is not modelled: scores are unbounded integers. Time is a `real`, not a 32-bit float.
- In events, a contestant is given by roster index and a roster payload by its list of scores. The C# events pass the objects themselves.
- The timer's events are kept in a separate trace from the engine's. The relative order of the two traces is not recorded.
- In the ghost trace, the events a step fires are appended together after the field updates of that step. The relative order of one event and one field write inside a step is therefore not recorded.
- The five tier lists and the five queue fields are modelled as sequences indexed 0 to 4.
- `Shuffle` is lazy in C#; it is modelled as an eager copy because the queue constructor consumes it at once. Reading and writing a list are array reads and writes.
- Turns.TurnManager.AwardAndAdvance: the method is split into `Award`, `ScoreCurrent`, `Advance`, `Resume`, `PopReturnPoint` and `NextSlot`, and `StartQuestion` into `StartQuestion` and `OpenSlot`. The steps and their order are those of the C# code.
- Bank.QuestionBank.NextForPoints: it requires only the bank's consistency. It keeps the permutation invariant as `old(Permuted()) ==> Permuted()` rather than requiring it.
- EndGame can fire more than once. `AwardAndAdvance` counts every finished turn (TurnManager.cs:250 and 267). It fires EndGame whenever the count is at or above the roster size (251-255 and 268-272). Restarting a finished contestant's turn therefore pushes the count past the roster size. The model follows the code (`TurnRules.AwardAndAdvanceCountsTurns`).
- `InitIfNeeded` never sets its own flag (QuestionBank.cs:34-39); `Awake` sets it (TurnManager.cs:75). A second call made before that rebuilds the queues. Once the flag is set, no `TurnManager` operation can change it: their frames cover only the bank's queues and its record of draws.
