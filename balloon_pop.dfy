/**
 * Balloon Pop: the player picks one of the problem's options, and the pick is
 * correct when it equals the problem's answer. The options are shown in an order
 * shuffled once per problem. The component's state lives in a class whose methods
 * are proved against the round machine in module Round.
 */
module BalloonPopGame {
  import opened Types
  import opened Round

  /** The problem's options, or none when the problem has no options. */
  function OptionsOf(p: Problem): seq<int> {
    match p.options
    case None => []
    case Some(o) => o
  }

  /** Exchanges two positions; a pair outside the sequence leaves it as it is. */
  function Swap(xs: seq<int>, i: nat, j: nat): (r: seq<int>)
    ensures |r| == |xs| && multiset(r) == multiset(xs)
  {
    if i < |xs| && j < |xs| then xs[i := xs[j]][j := xs[i]] else xs
  }

  /**
   * Sorting with a random comparator: whatever the comparator answers, the sort
   * only moves elements around. The random answers are stood for by the exchanges
   * the sort performs, given here as `swaps`.
   */
  function Shuffle(xs: seq<int>, swaps: seq<(nat, nat)>): (r: seq<int>)
    ensures |r| == |xs| && multiset(r) == multiset(xs)
    decreases |swaps|
  {
    if swaps == [] then xs else Shuffle(Swap(xs, swaps[0].0, swaps[0].1), swaps[1..])
  }

  /** The memoised option order for a problem: a permutation of its options, empty without options. */
  function ShuffledOptions(p: Problem, swaps: seq<(nat, nat)>): (r: seq<int>)
    ensures multiset(r) == multiset(OptionsOf(p))
    ensures p.options.None? ==> r == []
  {
    if p.options.None? then [] else Shuffle(p.options.value, swaps)
  }

  /** Every option of the problem is shown as often as it occurs, and nothing else is. */
  lemma ShuffledOptionsShowEveryOption(p: Problem, swaps: seq<(nat, nat)>, v: int)
    ensures multiset(ShuffledOptions(p, swaps))[v] == multiset(OptionsOf(p))[v]
    ensures v in ShuffledOptions(p, swaps) <==> v in OptionsOf(p)
  {
    assert v in ShuffledOptions(p, swaps) <==> v in multiset(ShuffledOptions(p, swaps));
    assert v in OptionsOf(p) <==> v in multiset(OptionsOf(p));
  }

  class BalloonPop {
    const problems: seq<Problem>
    var currentProblemIndex: nat
    var score: nat
    var feedback: Feedback
    var selectedAnswer: Option<int>
    var shuffledOptions: seq<int>

    /** The round part of the component's state. */
    function Snapshot(): State
      reads this
    {
      State(currentProblemIndex, score, feedback)
    }

    ghost predicate Valid()
      reads this
    {
      && Inv(Snapshot(), |problems|)
      && multiset(shuffledOptions) == multiset(OptionsOf(problems[currentProblemIndex]))
    }

    /** Mounting the component on a non-empty problem list; `swaps` stands for the first shuffle. */
    constructor (problems: seq<Problem>, swaps: seq<(nat, nat)>)
      requires |problems| > 0
      ensures Valid() && this.problems == problems
      ensures Snapshot() == Start() && selectedAnswer == None
      ensures shuffledOptions == ShuffledOptions(problems[0], swaps)
    {
      this.problems := problems;
      currentProblemIndex := 0;
      score := 0;
      feedback := Unanswered;
      selectedAnswer := None;
      shuffledOptions := ShuffledOptions(problems[0], swaps);
      StartKeepsInv(|problems|);
    }

    /** Picking a balloon: recorded and scored once per round, ignored after that. */
    method HandleAnswerSelect(option: int)
      requires Valid()
      modifies this`score, this`feedback, this`selectedAnswer
      ensures Valid()
      ensures Snapshot() == Answer(old(Snapshot()), option == problems[currentProblemIndex].answer)
      ensures selectedAnswer == if old(feedback) == Unanswered then Some(option) else old(selectedAnswer)
      ensures old(feedback) != Unanswered ==> unchanged(this)
    {
      if feedback != Unanswered {
        return;
      }
      AnswerKeepsInv(Snapshot(), |problems|, option == problems[currentProblemIndex].answer);
      selectedAnswer := Some(option);
      if option == problems[currentProblemIndex].answer {
        score := score + 1;
        feedback := Correct;
      } else {
        feedback := Incorrect;
      }
    }

    /**
     * What the feedback timer does when it fires: next problem with no selection and
     * a fresh option order (`swaps` stands for that shuffle), or the final score.
     */
    method Advance(swaps: seq<(nat, nat)>) returns (step: Step)
      requires Valid()
      modifies this`currentProblemIndex, this`feedback, this`selectedAnswer, this`shuffledOptions
      ensures Valid()
      ensures (Snapshot(), step) == Round.Advance(old(Snapshot()), |problems|)
      ensures step == NextProblem ==>
        selectedAnswer == None && shuffledOptions == ShuffledOptions(problems[currentProblemIndex], swaps)
      ensures step != NextProblem ==>
        selectedAnswer == old(selectedAnswer) && shuffledOptions == old(shuffledOptions)
    {
      AdvanceKeepsInv(Snapshot(), |problems|);
      if feedback == Unanswered {
        step := Waiting;
      } else if currentProblemIndex + 1 < |problems| {
        currentProblemIndex := currentProblemIndex + 1;
        feedback := Unanswered;
        selectedAnswer := None;
        shuffledOptions := ShuffledOptions(problems[currentProblemIndex], swaps);
        step := NextProblem;
      } else {
        step := GameOver(score);
      }
    }
  }

  /**
   * Options [7, 3, 9, 1] with answer 7: picking 3 is wrong and scores nothing;
   * picking 7 scores one, and a later pick of 3 in the same round is ignored.
   */
  method PickScenario() returns (wrongFeedback: Feedback, wrongScore: nat, rightFeedback: Feedback, rightScore: nat, kept: Option<int>)
    ensures wrongFeedback == Incorrect && wrongScore == 0
    ensures rightFeedback == Correct && rightScore == 1 && kept == Some(7)
  {
    var p := Problem("5 + 2 = ?", 7, Some([7, 3, 9, 1]));
    var wrong := new BalloonPop([p], []);
    wrong.HandleAnswerSelect(3);
    wrongFeedback, wrongScore := wrong.feedback, wrong.score;
    var right := new BalloonPop([p], []);
    right.HandleAnswerSelect(7);
    right.HandleAnswerSelect(3);
    rightFeedback, rightScore, kept := right.feedback, right.score, right.selectedAnswer;
  }
}
