/** The values the quiz plugins work on: the question records loaded from the
    JSON document, the game-over tiers, and the feedback chosen after an answer. */
module QuizModel {

  /** The identifier of an answer option, compared for equality with a
      question's solution. */
  type OptionId = string

  /** The transient `answer` field of a question: unset (`undefined`) until
      the question is answered, then the boolean result of the comparison. */
  datatype Answer = Unanswered | Answered(correct: bool)

  /** The `feedback` pair of a question: index 0 is shown after a wrong
      answer, index 1 after a correct one. */
  datatype FeedbackPair = FeedbackPair(wrong: string, right: string)

  /** One entry of the `questions` array. Only `answer` is ever written. */
  datatype Question = Question(text: string, solution: OptionId, feedback: FeedbackPair, answer: Answer)

  /** One entry of the `gameover` array used by js/quiz.js. */
  datatype Tier = Tier(threshold: int, text: string, social: string)

  /** What the feedback screen shows: the css class and the message. */
  datatype Feedback = Feedback(verdict: string, msg: string)

  /** A value that may be absent (`undefined` in the source). */
  datatype Option<T> = None | Some(value: T)

  /** The phase the quiz is in. The source keeps no such variable: it is
      implied by which click handlers are bound. `Stuck` is a game-over
      screen that threw before it bound the restart button. */
  datatype Phase = Loading | Asking | Reviewing | Over | Stuck

  /** The feedback screen for a question, as `renderFeedback` chooses it: the
      answer is tested for truthiness, so both a wrong answer and a question
      never answered show the wrong-answer message. */
  function FeedbackFor(q: Question): (f: Feedback)
    ensures f.verdict == "correct" <==> q.answer == Answered(true)
    ensures f.verdict == "wrong" <==> q.answer != Answered(true)
    ensures q.answer == Answered(true) ==> f.msg == q.feedback.right
    ensures q.answer != Answered(true) ==> f.msg == q.feedback.wrong
  {
    if q.answer == Answered(true) then Feedback("correct", q.feedback.right)
    else Feedback("wrong", q.feedback.wrong)
  }
}
