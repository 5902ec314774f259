/** The end of the game in js/greenpeace-quiz.js: a message chosen from the
    final score against the maximum score. */
module GreenpeaceQuiz {
  import opened QuizModel
  import opened Scoring
  import opened QuizState

  /** The message of `onSetLastQuestion`. Its test `currentScore >= maxScore / 2`
      divides without rounding, so it is written here as `2 * score >= maxScore`. */
  function EndMessage(score: int, maxScore: int): (msg: string)
    ensures msg == "max score" <==> score == maxScore
    ensures msg == "not bad" <==> score != maxScore && 2 * score >= maxScore
    ensures msg == "looser!" <==> score != maxScore && 2 * score < maxScore
  {
    if score == maxScore then "max score"
    else if 2 * score >= maxScore then "not bad"
    else "looser!"
  }

  /** At the end of a game the top message is earned exactly by answering
      every question correctly. */
  lemma EndOfRunMaxScore(results: seq<bool>)
    ensures EndMessage(ScoreOf(results), |results|) == "max score" <==> AllCorrect(results)
  {
    FullScoreIffAllCorrect(results);
  }

  /** Answering fewer than half of the questions correctly always ends with
      the losing message. */
  lemma MinorityCorrectLoses(results: seq<bool>)
    requires 2 * CorrectCount(results) < |results|
    ensures EndMessage(ScoreOf(results), |results|) == "looser!"
  {
    ScoreBounds(results);
  }

  /** Answering at least three questions in four correctly never ends with
      the losing message, however the wrong answers fall. */
  lemma ThreeQuartersCorrectDoesNotLose(results: seq<bool>)
    requires 4 * CorrectCount(results) >= 3 * |results|
    ensures EndMessage(ScoreOf(results), |results|) != "looser!"
  {
    ScoreAtLeastNet(results);
  }

  /** With three questions one point is not half: the threshold is not
      rounded down. */
  lemma HalfIsNotRounded()
    ensures EndMessage(1, 3) == "looser!" && EndMessage(2, 3) == "not bad"
  {
  }

  datatype Step = Advanced(index: int) | Finished(msg: string)

  /** `onNextQuestion` of js/greenpeace-quiz.js: the next question, or the
      finish screen with the message for the current score. */
  method OnNextQuestion(quiz: Quiz) returns (step: Step)
    requires quiz.Ready()
    modifies quiz
    ensures quiz.Ready()
    ensures quiz.mcq == old(quiz.mcq) && quiz.fin == old(quiz.fin) && quiz.maxScore == old(quiz.maxScore)
    ensures quiz.currentScore == old(quiz.currentScore) && quiz.results == old(quiz.results)
    ensures step.Advanced? <==> old(quiz.currentQuestion) + 1 < quiz.mcq.Length
    ensures step.Advanced? ==>
      step.index == quiz.currentQuestion == old(quiz.currentQuestion) + 1 && quiz.phase == Asking
    ensures step.Finished? ==>
      quiz.currentQuestion == old(quiz.currentQuestion) && quiz.phase == Over &&
      step.msg == EndMessage(quiz.currentScore, quiz.maxScore)
  {
    var over := quiz.Next();
    if over {
      step := Finished(EndMessage(quiz.currentScore, quiz.maxScore));
    } else {
      step := Advanced(quiz.currentQuestion);
    }
  }
}
