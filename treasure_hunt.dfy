/**
 * Treasure Hunt: the player types an answer, which is read with `parseInt(text, 10)`
 * and compared with the problem's answer. The component's state lives in a class
 * whose methods are proved against the round machine in module Round.
 */
module TreasureHuntGame {
  import opened Types
  import opened Round
  import opened JsParseInt

  /** The Treasure Hunt check: the typed text reads as a number equal to the answer. */
  function TypedAnswerIsCorrect(userAnswer: string, answer: int): (correct: bool)
    ensures correct <==> ParseInt(userAnswer) == Some(answer)
    ensures correct ==> DigitRun(Unsigned(userAnswer)) > 0
  {
    match ParseInt(userAnswer)
    case None => false
    case Some(n) => n == answer
  }

  /**
   * A typed integer, with blanks before it and anything after it that does not start
   * with a digit ("12.9", "12 coins"), is judged by that integer alone: correct
   * exactly when it equals the answer.
   */
  lemma TypedNumeralIsJudgedByValue(w: string, n: int, rest: string, answer: int)
    requires JsString.AllWhiteSpace(w)
    requires rest == [] || !IsDigit(rest[0])
    ensures TypedAnswerIsCorrect(w + Decimal(n) + rest, answer) <==> n == answer
  {
    ParseIntOfDecimal(w, n, rest);
  }

  /** An empty answer, or one that does not start with a number, is incorrect whatever the expected answer is. */
  lemma NonNumericIsIncorrect(w: string, c: char, rest: string, answer: int)
    requires JsString.AllWhiteSpace(w)
    requires !IsDigit(c) && !JsString.IsWhiteSpace(c) && c != '+' && c != '-'
    ensures !TypedAnswerIsCorrect("", answer)
    ensures !TypedAnswerIsCorrect(w + [c] + rest, answer)
  {
    ParseIntOfEmpty();
    ParseIntRejectsNonNumeric(w, c, rest);
  }

  class TreasureHunt {
    const problems: seq<Problem>
    var currentProblemIndex: nat
    var score: nat
    var userAnswer: string
    var feedback: Feedback

    /** The round part of the component's state. */
    function Snapshot(): State
      reads this
    {
      State(currentProblemIndex, score, feedback)
    }

    ghost predicate Valid()
      reads this
    {
      Inv(Snapshot(), |problems|)
    }

    /** Mounting the component on a non-empty problem list. */
    constructor (problems: seq<Problem>)
      requires |problems| > 0
      ensures Valid() && this.problems == problems
      ensures Snapshot() == Start() && userAnswer == ""
    {
      this.problems := problems;
      currentProblemIndex := 0;
      score := 0;
      userAnswer := "";
      feedback := Unanswered;
      StartKeepsInv(|problems|);
    }

    /** The answer field's change handler. */
    method SetUserAnswer(text: string)
      modifies this`userAnswer
      ensures userAnswer == text
    {
      userAnswer := text;
    }

    /** Submitting the typed answer: scored once per round, ignored after that. */
    method HandleSubmit()
      requires Valid()
      modifies this`score, this`feedback
      ensures Valid()
      ensures Snapshot() == Answer(old(Snapshot()), TypedAnswerIsCorrect(userAnswer, problems[currentProblemIndex].answer))
      ensures old(feedback) != Unanswered ==> unchanged(this)
    {
      if feedback != Unanswered {
        return;
      }
      AnswerKeepsInv(Snapshot(), |problems|, TypedAnswerIsCorrect(userAnswer, problems[currentProblemIndex].answer));
      var answer := ParseInt(userAnswer);
      if answer.Some? && answer.value == problems[currentProblemIndex].answer {
        score := score + 1;
        feedback := Correct;
      } else {
        feedback := Incorrect;
      }
    }

    /** What the feedback timer does when it fires: next problem with a cleared field, or the final score. */
    method Advance() returns (step: Step)
      requires Valid()
      modifies this`currentProblemIndex, this`userAnswer, this`feedback
      ensures Valid()
      ensures (Snapshot(), step) == Round.Advance(old(Snapshot()), |problems|)
      ensures userAnswer == if step == NextProblem then "" else old(userAnswer)
    {
      AdvanceKeepsInv(Snapshot(), |problems|);
      if feedback == Unanswered {
        step := Waiting;
      } else if currentProblemIndex + 1 < |problems| {
        currentProblemIndex := currentProblemIndex + 1;
        userAnswer := "";
        feedback := Unanswered;
        step := NextProblem;
      } else {
        step := GameOver(score);
      }
    }
  }
}
