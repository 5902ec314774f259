/** The score rule shared by both plugins: `setScore` ignores negative values,
    a correct answer asks for one point more and a wrong one for one point less. */
module Scoring {

  /** The score after `setScore(s)` when the score was `current`. */
  function Assigned(current: int, s: int): (r: int)
    ensures s >= 0 ==> r == s
    ensures s < 0 ==> r == current
    ensures current >= 0 ==> r >= 0
  {
    if s >= 0 then s else current
  }

  /** The score after one answer whose comparison gave `correct`. */
  function Scored(score: int, correct: bool): (r: int)
    ensures correct && score >= 0 ==> r == score + 1
    ensures !correct && score >= 1 ==> r == score - 1
    ensures !correct && score <= 0 ==> r == score
    ensures score >= 0 ==> r >= 0
  {
    Assigned(score, if correct then score + 1 else score - 1)
  }

  /** The score after the answers `results` given since the last reset, in order. */
  function ScoreOf(results: seq<bool>): int
  {
    if results == [] then 0
    else Scored(ScoreOf(results[..|results| - 1]), results[|results| - 1])
  }

  /** The number of correct answers among `results`. */
  function CorrectCount(results: seq<bool>): nat
  {
    if results == [] then 0
    else CorrectCount(results[..|results| - 1]) + (if results[|results| - 1] then 1 else 0)
  }

  predicate AllCorrect(results: seq<bool>)
  {
    forall i :: 0 <= i < |results| ==> results[i]
  }

  lemma {:induction false} CorrectCountBounds(results: seq<bool>)
    ensures CorrectCount(results) <= |results|
    ensures CorrectCount(results) == |results| <==> AllCorrect(results)
  {
    if results != [] {
      var init := results[..|results| - 1];
      CorrectCountBounds(init);
      assert forall i :: 0 <= i < |init| ==> init[i] == results[i];
      if AllCorrect(results) {
        assert AllCorrect(init);
      }
    }
  }

  /** The score never goes negative, and never exceeds the number of correct
      answers, hence never the number of answers. */
  lemma {:induction false} ScoreBounds(results: seq<bool>)
    ensures 0 <= ScoreOf(results) <= CorrectCount(results) <= |results|
  {
    if results != [] {
      ScoreBounds(results[..|results| - 1]);
    }
    CorrectCountBounds(results);
  }

  /** Wrong answers can only be forgiven by the floor at 0: the score is at
      least the number of correct answers minus the number of wrong ones. */
  lemma {:induction false} ScoreAtLeastNet(results: seq<bool>)
    ensures ScoreOf(results) >= CorrectCount(results) - (|results| - CorrectCount(results))
  {
    if results != [] {
      ScoreAtLeastNet(results[..|results| - 1]);
      ScoreBounds(results[..|results| - 1]);
    }
  }

  /** The score equals the number of answers exactly when every answer was correct. */
  lemma {:induction false} FullScoreIffAllCorrect(results: seq<bool>)
    ensures ScoreOf(results) == |results| <==> AllCorrect(results)
  {
    ScoreBounds(results);
    CorrectCountBounds(results);
    if AllCorrect(results) {
      AllCorrectScore(results);
    }
  }

  lemma {:induction false} AllCorrectScore(results: seq<bool>)
    requires AllCorrect(results)
    ensures ScoreOf(results) == |results|
  {
    if results != [] {
      var init := results[..|results| - 1];
      assert forall i :: 0 <= i < |init| ==> init[i] == results[i];
      AllCorrectScore(init);
    }
  }

  /** Three questions, the first and third answered correctly: final score 1. */
  lemma ThreeAnswerScenario()
    ensures ScoreOf([true, false, true]) == 1
  {
    assert [true, false, true][..2] == [true, false];
    assert [true, false][..1] == [true];
    assert [true][..0] == [];
  }
}
