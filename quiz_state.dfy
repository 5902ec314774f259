/** The state both plugins keep in their closure, and the handlers that change
    it: loading and restarting (`init`, `onReady`), scoring an answer
    (`onAnswerClick`, `setScore`) and moving on (`onNextQuestion`,
    `setQuestion`). The two plugins differ in what they do once the last
    question is done (see modules TieredQuiz and GreenpeaceQuiz) and in that
    only js/quiz.js assigns the `gameover` tiers when it loads. */
module QuizState {
  import opened QuizModel
  import opened Scoring

  class Quiz {
    /** Whether the question document has been loaded (`mcq !== undefined`). */
    var loaded: bool
    var mcq: array<Question>
    /** The `gameover` tiers of the document, `None` while unassigned: only
        js/quiz.js assigns and reads them, and a document may lack them. */
    var fin: Option<seq<Tier>>
    var maxScore: int
    var currentScore: int
    var currentQuestion: int

    /** The phase implied by the handlers that are bound. */
    ghost var phase: Phase
    /** The results of the answers given since the last reset, in order. */
    ghost var results: seq<bool>

    ghost predicate Valid()
      reads this
    {
      loaded ==>
        maxScore == mcq.Length &&
        0 <= currentQuestion < mcq.Length &&
        currentScore == ScoreOf(results) &&
        phase != Loading &&
        (phase == Over || phase == Stuck ==> currentQuestion == mcq.Length - 1)
    }

    ghost predicate Ready()
      reads this
    {
      loaded && Valid()
    }

    /** The closure before `init` has run: nothing is loaded. */
    constructor ()
      ensures Valid() && !loaded && phase == Loading
      ensures fresh(mcq) && mcq.Length == 0 && fin == None
    {
      loaded := false;
      mcq := new Question[0];
      fin := None;
      maxScore := 0;
      currentScore := 0;
      currentQuestion := 0;
      phase := Loading;
      results := [];
    }

    /** `init`, both at start-up and when the restart button is clicked. The
        document is fetched only while nothing is loaded; `questions` and
        `tiers` stand for what that fetch delivers and are ignored once
        loaded; `tiers` is `None` for a document without `gameover`, and for
        js/greenpeace-quiz.js, whose `init` never assigns `fin`. With data
        already loaded every recorded answer is cleared and nothing else in
        the questions changes. Either way the quiz then starts over at
        question 0 with score 0. An empty question set is
        excluded: `setQuestion(0)` dereferences its first question. */
    method Init(questions: seq<Question>, tiers: Option<seq<Tier>>)
      requires Valid()
      requires loaded || |questions| > 0
      modifies this, mcq
      ensures Ready() && phase == Asking
      ensures currentScore == 0 && currentQuestion == 0 && results == []
      ensures old(loaded) ==> mcq == old(mcq) && fin == old(fin)
      ensures old(loaded) ==> forall i :: 0 <= i < mcq.Length ==> mcq[i] == old(mcq[i]).(answer := Unanswered)
      ensures !old(loaded) ==> fresh(mcq) && mcq[..] == questions && fin == tiers
    {
      if !loaded {
        mcq := new Question[|questions|](i requires 0 <= i < |questions| => questions[i]);
        fin := tiers;
        maxScore := mcq.Length;
        loaded := true;
      } else {
        var i := 0;
        while i < maxScore
          invariant unchanged(this)
          invariant 0 <= i <= maxScore
          invariant forall j :: 0 <= j < i ==> mcq[j] == old(mcq[j]).(answer := Unanswered)
          invariant forall j :: i <= j < mcq.Length ==> mcq[j] == old(mcq[j])
        {
          mcq[i] := mcq[i].(answer := Unanswered);
          i := i + 1;
        }
      }
      OnReady();
    }

    /** `onReady`: score 0, first question. */
    method OnReady()
      requires loaded && maxScore == mcq.Length && mcq.Length > 0
      modifies this`currentScore, this`currentQuestion, this`phase, this`results
      ensures Ready() && phase == Asking
      ensures currentScore == 0 && currentQuestion == 0 && results == []
    {
      SetScore(0);
      results := [];
      SetQuestion(0);
    }

    /** `setScore`: a negative value is ignored. */
    method SetScore(s: int)
      modifies this`currentScore
      ensures currentScore == Assigned(old(currentScore), s)
    {
      if s >= 0 {
        currentScore := s;
      }
    }

    /** `setQuestion` (the index update; rendering is not modelled). */
    method SetQuestion(q: int)
      requires 0 <= q < mcq.Length
      modifies this`currentQuestion, this`phase
      ensures currentQuestion == q && phase == Asking
    {
      currentQuestion := q;
      phase := Asking;
    }

    /** `onAnswerClick(o, q)` with `chosen` the option clicked: one point
        more for the solution, one point less (never below 0) otherwise, the
        result recorded on question `q` and on no other, and the feedback
        screen built from the CURRENT question, which is question `q` unless
        the click is stale. No phase is required: the handler has no guard. */
    method Answer(q: int, chosen: OptionId) returns (correct: bool, shown: Feedback)
      requires Ready() && 0 <= q < mcq.Length
      modifies this`currentScore, this`results, this`phase, mcq
      ensures Ready() && phase == Reviewing
      ensures correct <==> chosen == old(mcq[q].solution)
      ensures currentScore == Scored(old(currentScore), correct)
      ensures results == old(results) + [correct]
      ensures 0 <= currentScore <= |results|
      ensures mcq[q] == old(mcq[q]).(answer := Answered(correct))
      ensures forall i :: 0 <= i < mcq.Length && i != q ==> mcq[i] == old(mcq[i])
      ensures shown == FeedbackFor(mcq[currentQuestion])
      ensures q == currentQuestion ==>
        shown.msg == if correct then mcq[q].feedback.right else mcq[q].feedback.wrong
    {
      correct := chosen == mcq[q].solution;
      if correct {
        SetScore(currentScore + 1);
      } else {
        SetScore(currentScore - 1);
      }
      results := results + [correct];
      assert results[..|results| - 1] == old(results);
      mcq[q] := mcq[q].(answer := Answered(correct));
      phase := Reviewing;
      ScoreBounds(results);
      shown := FeedbackFor(mcq[currentQuestion]);
    }

    /** The part of `onNextQuestion` the two plugins share: the next index
        while there is one, otherwise the game is over and the index stays.
        No phase is required: a second advance is not guarded against. */
    method Next() returns (over: bool)
      requires Ready()
      modifies this`currentQuestion, this`phase
      ensures Ready()
      ensures over <==> old(currentQuestion) + 1 >= mcq.Length
      ensures !over ==> currentQuestion == old(currentQuestion) + 1 && phase == Asking
      ensures over ==> currentQuestion == old(currentQuestion) && phase == Over
    {
      if currentQuestion + 1 < mcq.Length {
        SetQuestion(currentQuestion + 1);
        over := false;
      } else {
        phase := Over;
        over := true;
      }
    }
  }

  /** A full game from a restart: question k is answered with `choices[k]`
      and then advanced past. It ends in the game-over phase with a score
      between 0 and `maxScore`, equal to `maxScore` exactly when every choice
      was the solution. */
  method PlayThrough(quiz: Quiz, choices: seq<OptionId>)
    requires quiz.Ready() && |choices| == quiz.mcq.Length
    modifies quiz, quiz.mcq
    ensures quiz.Ready() && quiz.phase == Over && quiz.mcq == old(quiz.mcq)
    ensures |quiz.results| == |choices| == quiz.maxScore
    ensures forall i :: 0 <= i < |choices| ==> quiz.mcq[i] == old(quiz.mcq[i]).(answer := Answered(quiz.results[i]))
    ensures forall i :: 0 <= i < |choices| ==> quiz.results[i] == (choices[i] == quiz.mcq[i].solution)
    ensures 0 <= quiz.currentScore <= quiz.maxScore
    ensures quiz.currentScore == quiz.maxScore <==>
      forall i :: 0 <= i < |choices| ==> choices[i] == quiz.mcq[i].solution
  {
    quiz.Init([], None);
    var n := |choices|;
    var k := 0;
    while k < n
      invariant quiz.Ready() && quiz.mcq == old(quiz.mcq) && quiz.mcq.Length == n
      invariant 0 <= k <= n && |quiz.results| == k
      invariant k < n ==> quiz.currentQuestion == k && quiz.phase == Asking
      invariant k == n ==> quiz.phase == Over
      invariant forall i :: 0 <= i < k ==> quiz.mcq[i] == old(quiz.mcq[i]).(answer := Answered(quiz.results[i]))
      invariant forall i :: k <= i < n ==> quiz.mcq[i] == old(quiz.mcq[i]).(answer := Unanswered)
      invariant forall i :: 0 <= i < k ==> quiz.results[i] == (choices[i] == quiz.mcq[i].solution)
    {
      var correct, shown := quiz.Answer(k, choices[k]);
      var over := quiz.Next();
      k := k + 1;
    }
    ScoreBounds(quiz.results);
    FullScoreIffAllCorrect(quiz.results);
  }
}
