/** The end of the game in js/quiz.js: the `gameover` tiers are scanned for
    the first one whose threshold the final score does not exceed, and that
    tier's text, image and social message are shown. */
module TieredQuiz {
  import opened QuizModel
  import opened QuizState

  /** The tier `setGameOver` selects for `score`: the first whose threshold
      is at least the score, every earlier one having a smaller threshold;
      `|fin|` when there is none. */
  function TierIndex(fin: seq<Tier>, score: int): (i: nat)
    ensures i <= |fin|
    ensures forall j :: 0 <= j < i ==> fin[j].threshold < score
    ensures i < |fin| ==> score <= fin[i].threshold
  {
    if fin == [] then 0
    else if score <= fin[0].threshold then 0
    else 1 + TierIndex(fin[1..], score)
  }

  /** The scan of `setGameOver`, a loop left by `break`. */
  method SetGameOver(fin: seq<Tier>, score: int) returns (i: nat)
    ensures i == TierIndex(fin, score)
  {
    i := 0;
    while i < |fin|
      invariant i <= |fin|
      invariant forall j :: 0 <= j < i ==> fin[j].threshold < score
    {
      if score <= fin[i].threshold {
        break;
      }
      i := i + 1;
    }
  }

  /** A tier is found (so `renderGameOver` does not read past the end of
      `fin`) exactly when some tier's threshold is at least the score. */
  lemma {:induction false} TierFoundIff(fin: seq<Tier>, score: int)
    ensures TierIndex(fin, score) < |fin| <==> exists j :: 0 <= j < |fin| && score <= fin[j].threshold
  {
    var i := TierIndex(fin, score);
    if i < |fin| {
      assert score <= fin[i].threshold;
    }
  }

  /** A higher score never selects an earlier tier. */
  lemma {:induction false} TierMonotone(fin: seq<Tier>, low: int, high: int)
    requires low <= high
    ensures TierIndex(fin, low) <= TierIndex(fin, high)
  {
    if fin != [] && high > fin[0].threshold {
      TierMonotone(fin[1..], low, high);
    }
  }

  /** A document whose last tier's threshold is at least `maxScore` always
      yields a tier for a score the game can reach. */
  lemma GameOverTierInRange(fin: seq<Tier>, maxScore: int, score: int)
    requires |fin| > 0 && maxScore <= fin[|fin| - 1].threshold
    requires score <= maxScore
    ensures TierIndex(fin, score) < |fin|
  {
    TierFoundIff(fin, score);
  }

  /** Tiers with thresholds 1, 2 and 3 and a final score of 2 select the
      second tier. */
  lemma TierScenario()
    ensures TierIndex([Tier(1, "loser", ""), Tier(2, "ok", ""), Tier(3, "winner", "")], 2) == 1
  {
  }

  /** What `onNextQuestion` leads to: the next question, the game-over
      screen for a tier, or a game-over screen that throws. */
  datatype Step = Advanced(index: int) | Finished(tier: nat) | Crashed

  /** `onNextQuestion` of js/quiz.js: the next question, or the game-over
      screen with the tier `setGameOver` selects for the current score. That
      screen throws when the document had no `gameover` tiers (`f.length`) or
      no tier qualifies (`fin[i]['text']` past the end), after emptying the
      view and before binding the restart button: the quiz is then stuck. */
  method OnNextQuestion(quiz: Quiz) returns (step: Step)
    requires quiz.Ready()
    modifies quiz
    ensures quiz.Ready()
    ensures quiz.mcq == old(quiz.mcq) && quiz.fin == old(quiz.fin) && quiz.maxScore == old(quiz.maxScore)
    ensures quiz.currentScore == old(quiz.currentScore) && quiz.results == old(quiz.results)
    ensures step.Advanced? <==> old(quiz.currentQuestion) + 1 < quiz.mcq.Length
    ensures step.Advanced? ==>
      step.index == quiz.currentQuestion == old(quiz.currentQuestion) + 1 && quiz.phase == Asking
    ensures !step.Advanced? ==> quiz.currentQuestion == old(quiz.currentQuestion)
    ensures step.Finished? <==>
      !step.Advanced? && quiz.fin.Some? && TierIndex(quiz.fin.value, quiz.currentScore) < |quiz.fin.value|
    ensures step.Finished? ==>
      quiz.phase == Over && step.tier == TierIndex(quiz.fin.value, quiz.currentScore)
    ensures step.Crashed? ==> quiz.phase == Stuck
  {
    var over := quiz.Next();
    if !over {
      step := Advanced(quiz.currentQuestion);
    } else if quiz.fin.None? {
      quiz.phase := Stuck;
      step := Crashed;
    } else {
      var i := SetGameOver(quiz.fin.value, quiz.currentScore);
      if i < |quiz.fin.value| {
        step := Finished(i);
      } else {
        quiz.phase := Stuck;
        step := Crashed;
      }
    }
  }
}
