/** The quiz-taking session driven by the chat callbacks
    (`handlers/callbacks.py`): choosing a quiz loads its questions through
    the play-time processor, every answer scores and advances, and the
    session finishes, records its result and clears itself once the last
    question is answered. The per-chat data store the handlers read and
    update is the state of one `QuizSession` object; the store of results
    is a sequence the session appends to. */
module Callbacks {
  import opened Wrappers
  import opened QuizModel
  import QuizProcessor

  /** What `finish_quiz` saves: the quiz, the score and the question count. */
  datatype AttemptResult = AttemptResult(quizId: int, score: nat, totalQuestions: nat)

  /** What the user sees after the session moves: the next question, or the
      result once every question has been answered. */
  datatype Screen = Present(question: Question) | Done(result: AttemptResult)

  datatype SelectOutcome = NotFound | LoadFailed | Started(first: Question)

  /** What an answer leads to. `Rejected`: the handler fails before it
      changes anything. `Stalled`: the score and position are updated but the
      feedback line fails, so no next question is shown. */
  datatype AnswerOutcome = Rejected | Stalled | Shown(screen: Screen)

  /** The selected option is the question's answer. A question without an
      answer, or with a negative one, never matches. */
  predicate Scores(q: Question, selected: nat)
  {
    q.correctAnswer == Some(selected as int)
  }

  function Point(q: Question, selected: nat): nat
  {
    if Scores(q, selected) then 1 else 0
  }

  /** The number of selections that match the answers of the questions they
      were made on, the `k`-th selection on the `k`-th question. */
  function Matches(qs: seq<Question>, picks: seq<nat>): (n: nat)
    requires |picks| <= |qs|
    ensures n <= |picks|
    decreases |picks|
  {
    if |picks| == 0 then 0
    else Matches(qs, picks[..|picks| - 1]) + Point(qs[|picks| - 1], picks[|picks| - 1])
  }

  /** The number of questions that some selection can match. */
  function Scorable(qs: seq<Question>): (n: nat)
    ensures n <= |qs|
    decreases |qs|
  {
    if |qs| == 0 then 0
    else
      var a := qs[|qs| - 1].correctAnswer;
      Scorable(qs[..|qs| - 1]) + if a.Some? && a.value >= 0 then 1 else 0
  }

  /** Writing the feedback line fails: the question has no answer, or its
      answer is outside the indexes Python accepts for the options list,
      negative ones counting from the end. */
  predicate FeedbackFails(q: Question)
  {
    q.correctAnswer.None? || !(-|q.options| <= q.correctAnswer.value < |q.options|)
  }

  /** The percentage `finish_quiz` reports, computed exactly. */
  function Percentage(score: nat, total: nat): (p: real)
    requires 0 < total && score <= total
    ensures 0.0 <= p <= 100.0
    ensures p == 100.0 <==> score == total
  {
    100.0 * (score as real) / (total as real)
  }

  class QuizSession {
    /** The store holds session data; `false` once `state.clear()` ran. */
    var active: bool
    var quizId: int
    var questions: seq<Question>
    var current: nat
    var correct: nat
    var total: nat
    /** The results handed to storage, oldest first. */
    var saved: seq<AttemptResult>
    /** The selections made so far in this attempt, oldest first. */
    ghost var picks: seq<nat>

    /** While a quiz is loaded, one selection has been made per question
        passed and the score counts those that matched; once cleared, the
        store is empty. */
    ghost predicate Valid()
      reads this
    {
      if active then
        && 1 <= |questions|
        && total == |questions|
        && current <= |questions|
        && current == |picks|
        && correct == Matches(questions, picks)
      else
        && questions == [] && picks == []
        && quizId == 0 && current == 0 && correct == 0 && total == 0
    }

    constructor ()
      ensures Valid() && !active && saved == []
    {
      active, quizId, questions, current, correct, total := false, 0, [], 0, 0, 0;
      saved := [];
      picks := [];
    }

    /** `state.clear()`. */
    method Clear()
      modifies this
      ensures Valid() && !active && saved == old(saved)
    {
      active, quizId, questions, current, correct, total := false, 0, [], 0, 0, 0;
      picks := [];
    }

    /** `finish_quiz`: the result is saved with the score and the question
        count as they stand, then the store is cleared. */
    method Finish() returns (result: AttemptResult)
      requires Valid() && active && current == |questions|
      modifies this
      ensures Valid() && !active
      ensures result == AttemptResult(old(quizId), old(correct), old(total))
      ensures result.score == Matches(old(questions), old(picks))
      ensures 0 < result.totalQuestions && result.score <= result.totalQuestions
      ensures saved == old(saved) + [result]
    {
      result := AttemptResult(quizId, correct, total);
      saved := saved + [result];
      Clear();
    }

    /** `show_question`: the question at the current position, or the
        finish once the position has passed the last question. */
    method ShowQuestion() returns (screen: Screen)
      requires Valid() && active
      modifies this
      ensures Valid()
      ensures screen.Present? <==> old(current) < old(|questions|)
      ensures screen.Present? ==>
        && active && current < |questions| && screen.question == questions[current]
        && quizId == old(quizId) && questions == old(questions)
        && current == old(current) && correct == old(correct)
        && picks == old(picks) && saved == old(saved)
      ensures screen.Done? ==>
        && !active
        && screen.result == AttemptResult(old(quizId), old(correct), old(total))
        && screen.result.score == Matches(old(questions), old(picks))
        && saved == old(saved) + [screen.result]
    {
      if current >= |questions| {
        var result := Finish();
        return Done(result);
      }
      return Present(questions[current]);
    }

    /** `select_quiz_callback`. `stored` is the text of quiz `id` when the
        lookup finds it. A missing quiz changes nothing; a text the
        processor fails on or finds no question in clears the store; any
        other text starts the quiz at its first question. */
    method Select(id: int, stored: Option<string>) returns (outcome: SelectOutcome)
      requires Valid()
      modifies this
      ensures Valid()
      ensures saved == old(saved)
      ensures outcome.NotFound? <==> stored.None?
      ensures outcome.NotFound? ==> unchanged(this)
      ensures stored.Some? ==>
        var processed := QuizProcessor.ProcessQuiz(stored.value);
        if processed.Err? || processed.value == [] then outcome.LoadFailed? && !active
        else
          && outcome == Started(processed.value[0])
          && active && quizId == id && questions == processed.value
          && current == 0 && correct == 0 && total == |processed.value|
    {
      if stored.None? {
        return NotFound;
      }
      var processed := QuizProcessor.ProcessQuizText(stored.value);
      if processed.Err? || processed.value == [] {
        Clear();
        return LoadFailed;
      }
      active, quizId, questions := true, id, processed.value;
      current, correct, total := 0, 0, |processed.value|;
      picks := [];
      var screen := ShowQuestion();
      return Started(screen.question);
    }

    /** `answer_callback`. Reading the current question fails when nothing
        is loaded or the position has passed the last question. Otherwise
        the score grows by one exactly when the selection is the answer, the
        position advances by one either way, and the next question or the
        result is shown unless the feedback line fails first. */
    method Answer(selected: nat) returns (outcome: AnswerOutcome)
      requires Valid()
      modifies this
      ensures Valid()
      ensures outcome.Rejected? <==> old(!active || current >= |questions|)
      ensures outcome.Rejected? ==> unchanged(this)
      ensures !outcome.Rejected? ==>
        var q := old(questions[current]);
        && (outcome.Stalled? <==> FeedbackFails(q))
        && (outcome.Stalled? || (outcome.Shown? && outcome.screen.Present?) ==>
              && active && quizId == old(quizId) && questions == old(questions)
              && current == old(current) + 1
              && correct == old(correct) + Point(q, selected)
              && picks == old(picks) + [selected] && saved == old(saved))
        && (outcome.Shown? && outcome.screen.Present? ==>
              current < |questions| && outcome.screen.question == questions[current])
        && (outcome.Shown? && outcome.screen.Done? ==>
              && !active
              && old(current) + 1 == old(|questions|)
              && outcome.screen.result ==
                   AttemptResult(old(quizId), old(correct) + Point(q, selected), old(total))
              && outcome.screen.result.score == Matches(old(questions), old(picks) + [selected])
              && saved == old(saved) + [outcome.screen.result])
    {
      if !active || current >= |questions| {
        return Rejected;
      }
      var q := questions[current];
      var isCorrect := q.correctAnswer == Some(selected as int);
      MatchesSnoc(questions, picks, selected);
      current := current + 1;
      correct := correct + if isCorrect then 1 else 0;
      picks := picks + [selected];
      if q.correctAnswer.None? || !(-|q.options| <= q.correctAnswer.value < |q.options|) {
        return Stalled;
      }
      var screen := ShowQuestion();
      return Shown(screen);
    }
  }

  // ---------------------------------------------------------------------
  // Scoring
  // ---------------------------------------------------------------------

  lemma MatchesSnoc(qs: seq<Question>, picks: seq<nat>, p: nat)
    requires |picks| < |qs|
    ensures Matches(qs, picks + [p]) == Matches(qs, picks) + Point(qs[|picks|], p)
  {
    assert (picks + [p])[..|picks|] == picks;
  }

  /** A perfect score means every selection matched, and conversely. */
  lemma {:induction false} PerfectScore(qs: seq<Question>, picks: seq<nat>)
    requires |picks| <= |qs|
    ensures Matches(qs, picks) == |picks| <==>
      forall k :: 0 <= k < |picks| ==> Scores(qs[k], picks[k])
    decreases |picks|
  {
    if |picks| > 0 {
      var init := picks[..|picks| - 1];
      PerfectScore(qs, init);
      assert forall k :: 0 <= k < |init| ==> init[k] == picks[k];
    }
  }

  /** Only questions with an answer that is not negative can be scored, so
      a quiz whose processed text lost answers, or stated 0, can never be
      finished with a full score. */
  lemma {:induction false} ScoreBoundedByScorable(qs: seq<Question>, picks: seq<nat>)
    requires |picks| <= |qs|
    ensures Matches(qs, picks) <= Scorable(qs[..|picks|])
    decreases |picks|
  {
    if |picks| > 0 {
      var n := |picks| - 1;
      ScoreBoundedByScorable(qs, picks[..n]);
      assert qs[..|picks|][..n] == qs[..n];
    }
  }

  /** A question that passed the authoring checks never makes the feedback
      line fail. */
  lemma WellFormedFeedback(q: Question)
    requires WellFormed(q)
    ensures !FeedbackFails(q)
  {
  }
}
