# Greenpeace quiz: the quiz progression state machine

The repository ships two near-identical jQuery plugins, `js/quiz.js` and
`js/greenpeace-quiz.js`. Each keeps, in its closure, the loaded question array
`mcq` (every question has a `solution` and a transient `answer`), the current
score, the current question index and, implicitly, `maxScore == mcq.length`.
Clicks drive it through question → answer feedback → next question → game over
→ restart.

This project models that state machine in Dafny:

- `QuizModel` (quiz_model.dfy): the question, tier and feedback records and the
  feedback-message choice of `renderFeedback`.
- `Scoring` (scoring.dfy): the `setScore` rule, the score after one answer, the
  score after a sequence of answers, and its bounds.
- `QuizState` (quiz_state.dfy): class `Quiz`, the closure state both plugins
  share, with `Init` (load or restart), `OnReady`, `SetScore`, `SetQuestion`,
  `Answer` and `Next`. A ghost `phase` stands for the set of bound handlers;
  its `Stuck` value is a game-over screen that threw before binding the
  restart button. A ghost `results` records the answers given since the last
  reset. The class invariant ties the score to those answers, and ties the
  game-over phases to the last question.
- `TieredQuiz` (tiered_quiz.dfy): the end of the game in `js/quiz.js`, a linear
  scan of the `gameover` tiers.
- `GreenpeaceQuiz` (greenpeace_quiz.dfy): the end of the game in
  `js/greenpeace-quiz.js`, a three-step message ladder.

Where the two plugins share code, the row below cites one of them; the other
file has the same lines (`init` at js/greenpeace-quiz.js:56-78, `onAnswerClick`
at 93-108, `onNextQuestion` at 132-138, `setScore` at 188-192, `renderFeedback`
at 230-242), with one difference: the `init` of js/greenpeace-quiz.js never
assigns `fin` (js/greenpeace-quiz.js:65-67, against js/quiz.js:67-69), which
the model expresses by passing `None` for the tiers.

The code has three guards missing, and the model has them missing too:
- Nothing checks that an answer click belongs to the current question.
  `Answer` scores question `q` even if it is not the current one, and the
  feedback screen is then built from the current question.
- Nothing stops a second advance. The "next" click and the timer can both
  call `onNextQuestion`, so `Next` requires no phase.
- Nothing reports a failed load. The fetch has no error callback.

## Model

| member | source | states |
|---|---|---|
| `QuizModel.FeedbackFor` | js/quiz.js:235-247 | the verdict is "correct" and the message is `feedback[1]` exactly when the recorded answer is true; a wrong or unset answer gives "wrong" and `feedback[0]` |
| `Scoring.Assigned` | js/quiz.js:193-197 | `setScore(s)` takes `s` when `s >= 0` and otherwise keeps the old score, so a non-negative score stays non-negative |
| `Scoring.Scored` | js/quiz.js:105-110 | from a non-negative score a correct answer adds exactly 1; a wrong answer subtracts 1, except at 0 where the score stays 0; the result is never negative |
| `Scoring.ScoreBounds` | js/quiz.js:86-110 | after any answers since a reset, 0 <= score <= number of correct answers <= number of answers |
| `Scoring.ScoreAtLeastNet` | js/greenpeace-quiz.js:102-107 | the score is at least (correct answers − wrong answers); the floor at 0 only ever raises it |
| `Scoring.FullScoreIffAllCorrect` | js/greenpeace-quiz.js:102-107 | the score equals the number of answers if and only if every answer was correct |
| `Scoring.ThreeAnswerScenario` | js/quiz.js:105-111 | correct, wrong, correct gives a final score of 1 |
| `QuizState.Quiz.constructor` | js/quiz.js:46-51 | before `init` nothing is loaded, there are no questions and no tiers |
| `QuizState.Quiz.Init` | js/quiz.js:58-81 | the document is loaded only when nothing is loaded yet; then `mcq` is the delivered questions and `maxScore == mcq.length`; with data already loaded, every question's `answer` is cleared and nothing else in it changes; either way the score is 0, the index is 0 and no answers are counted |
| `QuizState.Quiz.OnReady` | js/quiz.js:86-89 | `onReady` sets the score to 0 and the current question to 0 |
| `QuizState.Quiz.SetScore` | js/greenpeace-quiz.js:188-192 | the new score is `Scoring.Assigned(old score, s)`: a negative value is ignored |
| `QuizState.Quiz.SetQuestion` | js/quiz.js:147-150 | the current index becomes `q`; the question is being asked |
| `QuizState.Quiz.Answer` | js/quiz.js:96-114 | the result is `chosen == solution`; the score follows `Scoring.Scored` and stays within 0..answers given; the result is written to `mcq[q].answer` and no other question changes; the feedback shown is that of the current question, and when `q` is current it is `feedback[1]` for a correct answer and `feedback[0]` otherwise |
| `QuizState.Quiz.Next` | js/quiz.js:135-141 | when `currentQuestion + 1 < mcq.length` the index goes up by exactly 1; otherwise the game is over and the index is unchanged; the index stays in `[0, mcq.length)` |
| `QuizState.PlayThrough` | js/quiz.js:86-141 | a full game from a restart ends in game over; each question keeps its solution and records only its own result; 0 <= score <= `maxScore`, and score == `maxScore` exactly when every choice was the solution |
| `TieredQuiz.TierIndex` | js/quiz.js:168-178 | the selected index is the first tier whose threshold is at least the score; every earlier tier's threshold is below the score; `fin.length` when no tier qualifies |
| `TieredQuiz.SetGameOver` | js/quiz.js:166-181 | the scan with `break` returns exactly `TierIndex(fin, score)` |
| `TieredQuiz.TierFoundIff` | js/quiz.js:268-275 | the index is inside `fin` (so `renderGameOver` can read `fin[i]`) if and only if some tier's threshold is at least the score |
| `TieredQuiz.TierMonotone` | js/quiz.js:174-178 | a higher score never selects an earlier tier |
| `TieredQuiz.GameOverTierInRange` | js/quiz.js:273-275 | if the last threshold is at least `maxScore`, every reachable score selects a tier inside `fin` |
| `TieredQuiz.TierScenario` | js/quiz.js:174-178 | thresholds 1, 2, 3 and score 2 select the second tier |
| `TieredQuiz.OnNextQuestion` | js/quiz.js:135-187 | either the next question; or game over with the tier `setGameOver` selects for the current score, exactly when the document has tiers and one qualifies; otherwise the game-over screen throws (no tiers at `f.length`, no qualifying tier at `fin[i]['text']`) and the quiz is stuck without a restart button; score, questions and tiers unchanged |
| `GreenpeaceQuiz.EndMessage` | js/greenpeace-quiz.js:163-173 | 'max score' iff score == maxScore; 'not bad' iff not max and score >= maxScore / 2 (not rounded); 'looser!' otherwise; exactly one applies |
| `GreenpeaceQuiz.EndOfRunMaxScore` | js/greenpeace-quiz.js:167-168 | after a game, the ladder computes 'max score' if and only if every answer was correct |
| `GreenpeaceQuiz.MinorityCorrectLoses` | js/greenpeace-quiz.js:169-172 | fewer than half of the answers correct always gives 'looser!' |
| `GreenpeaceQuiz.ThreeQuartersCorrectDoesNotLose` | js/greenpeace-quiz.js:169-172 | at least three answers in four correct never gives 'looser!' |
| `GreenpeaceQuiz.HalfIsNotRounded` | js/greenpeace-quiz.js:169 | with 3 questions a score of 1 loses and a score of 2 is 'not bad' |
| `GreenpeaceQuiz.OnNextQuestion` | js/greenpeace-quiz.js:132-138 | either the next question, or the finish with the message of `EndMessage` computed for the current score; score, questions and tiers unchanged |

## Left out

- The `$.getJSON` fetch and the timing of its callback (js/quiz.js:64-72). This is network I/O. The data the fetch would deliver is a parameter of `Init`, read only while nothing is loaded.
- All DOM templating and animation in the `render*` functions. Only the feedback-message choice is modelled; the fields a question has only for display (options, image) are not modelled.
- Click binding, re-binding on every render, and the `window.setTimeout` auto-advance (js/quiz.js:117-128). This is event and timer plumbing. Nothing is claimed about how often `onNextQuestion` runs.
- The `o.id[6]` convention for the clicked option (js/quiz.js:105). The chosen option is an abstract identifier compared with `solution`.
- `$.extend` configuration merging and plugin registration and invocation (js/quiz.js:13-38, 335-337).
- The syntax defects of js/greenpeace-quiz.js: the hyphenated plugin name at line 8 and the missing comma at line 35. The intended logic is modelled.
- js/greenpeace-quiz.js discards the ladder's message: `renderFinish` shows a fixed string (js/greenpeace-quiz.js:269). `EndMessage` models the message as computed, not as displayed.
- `QuizState.Quiz.Init`: an empty question set is excluded by its precondition, because `setQuestion(0)` dereferences `mcq[0]` and fails.
- `maxScore` is an implicit global in the source, shared by every instance on a page. The model keeps it per `Quiz` object, and several quiz instances are not modelled.
- Questions are values in the slots of the `mcq` array. Two slots holding the same JavaScript object (aliasing) are not modelled.
- Before the first load, `currentScore` is `undefined` in the source. The constructor uses 0, which nothing reads before `onReady` sets it.
- `js/greenpeace-quiz.js` neither assigns nor reads `gameover` tiers. Its `Quiz` objects carry a `fin` field that stays `None`.
- TieredQuiz.OnNextQuestion: the exception thrown by the game-over screen is not modelled as an exception; the method returns `Crashed` and the phase becomes `Stuck`. `QuizState.Quiz.Init` does not forbid a call from `Stuck`, where the source binds no restart button, because no handler in the model carries a phase guard, as none does in the source.
