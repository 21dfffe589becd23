/**
 * The round-by-round state machine that both games repeat: the current problem
 * index, the score and the feedback for the current round. Submitting an answer is
 * guarded by the feedback being unanswered; advancing (what the feedback timer does
 * when it fires) moves to the next problem or reports the final score.
 * The games differ only in how they decide that an answer is correct, so that
 * decision enters here as a boolean.
 */
module Round {

  datatype Feedback = Unanswered | Correct | Incorrect

  datatype State = State(index: nat, score: nat, feedback: Feedback)

  /** What one firing of the advance step does. */
  datatype Step = Waiting | NextProblem | GameOver(finalScore: nat)

  /** What a player or the timer can do to a session. */
  datatype Event = Submit(isCorrect: bool) | Tick

  /** The point the current round has already earned. */
  function Bonus(f: Feedback): nat {
    if f == Correct then 1 else 0
  }

  /** The session invariant over `total` problems. */
  predicate Inv(s: State, total: nat) {
    s.index < total && s.score <= s.index + Bonus(s.feedback)
  }

  /** A new session: first problem, no score, nothing answered. */
  function Start(): State {
    State(0, 0, Unanswered)
  }

  /** Scoring an answer whose correctness is `isCorrect`. */
  function Answer(s: State, isCorrect: bool): (t: State)
    ensures s.feedback != Unanswered ==> t == s
    ensures s.feedback == Unanswered ==> t.index == s.index && t.feedback != Unanswered
    ensures s.feedback == Unanswered ==> (t.feedback == Correct <==> isCorrect)
    ensures s.feedback == Unanswered ==> t.score == s.score + Bonus(t.feedback)
  {
    if s.feedback != Unanswered then s
    else if isCorrect then State(s.index, s.score + 1, Correct)
    else State(s.index, s.score, Incorrect)
  }

  /** The advance step over `total` problems: the new state and what it reports. */
  function Advance(s: State, total: nat): (r: (State, Step))
    ensures r.0.score == s.score
    ensures s.feedback == Unanswered ==> r == (s, Waiting)
    ensures r.1 == NextProblem <==> s.feedback != Unanswered && s.index + 1 < total
    ensures r.1 == NextProblem ==> r.0 == State(s.index + 1, s.score, Unanswered)
    ensures r.1.GameOver? <==> s.feedback != Unanswered && s.index + 1 >= total
    ensures r.1.GameOver? ==> r.0 == s && r.1.finalScore == s.score
  {
    if s.feedback == Unanswered then (s, Waiting)
    else if s.index + 1 < total then (State(s.index + 1, s.score, Unanswered), NextProblem)
    else (s, GameOver(s.score))
  }

  lemma StartKeepsInv(total: nat)
    requires total > 0
    ensures Inv(Start(), total)
  {
  }

  lemma AnswerKeepsInv(s: State, total: nat, isCorrect: bool)
    requires Inv(s, total)
    ensures Inv(Answer(s, isCorrect), total)
  {
  }

  lemma AdvanceKeepsInv(s: State, total: nat)
    requires Inv(s, total)
    ensures Inv(Advance(s, total).0, total)
  {
  }

  /** A second submission in the same round changes nothing. */
  lemma AnswerIsGuarded(s: State, first: bool, second: bool)
    ensures Answer(Answer(s, first), second) == Answer(s, first)
  {
  }

  /** The score a session reports at its end is at most the number of problems. */
  lemma GameOverBounded(s: State, total: nat)
    requires Inv(s, total)
    ensures Advance(s, total).1.GameOver? ==> Advance(s, total).1.finalScore <= total
  {
  }

  /** Runs a sequence of events over `total` problems; returns the last state and every reported final score. */
  function Play(s: State, total: nat, events: seq<Event>): (State, seq<nat>)
    decreases |events|
  {
    if events == [] then (s, [])
    else
      var (t, reported) := match events[0]
        case Submit(c) => (Answer(s, c), [])
        case Tick =>
          var (t, step) := Advance(s, total);
          (t, if step.GameOver? then [step.finalScore] else []);
      var (u, rest) := Play(t, total, events[1..]);
      (u, reported + rest)
  }

  /** Number of submissions in `events` that were correct answers. */
  function CorrectSubmissions(events: seq<Event>): nat {
    if events == [] then 0
    else (if events[0] == Submit(true) then 1 else 0) + CorrectSubmissions(events[1..])
  }

  /** Every run keeps the invariant and reports only final scores within the number of problems. */
  lemma {:induction false} PlayKeepsInv(s: State, total: nat, events: seq<Event>)
    requires Inv(s, total)
    ensures Inv(Play(s, total, events).0, total)
    ensures forall f :: f in Play(s, total, events).1 ==> f <= total
    decreases |events|
  {
    if events != [] {
      var t := match events[0]
        case Submit(c) => Answer(s, c)
        case Tick => Advance(s, total).0;
      match events[0] {
        case Submit(c) => AnswerKeepsInv(s, total, c);
        case Tick => AdvanceKeepsInv(s, total); GameOverBounded(s, total);
      }
      PlayKeepsInv(t, total, events[1..]);
    }
  }

  /** The score only grows through correct submissions, never through advancing. */
  lemma {:induction false} PlayScoreBound(s: State, total: nat, events: seq<Event>)
    ensures Play(s, total, events).0.score <= s.score + CorrectSubmissions(events)
    decreases |events|
  {
    if events != [] {
      var t := match events[0]
        case Submit(c) => Answer(s, c)
        case Tick => Advance(s, total).0;
      PlayScoreBound(t, total, events[1..]);
    }
  }

  /** One round of play: an answer is submitted, then the feedback timer fires. */
  function OneRound(correct: bool): (r: seq<Event>)
    ensures |r| == 2 && r[0].Submit? && r[1] == Tick
  {
    [Submit(correct), Tick]
  }

  /** A round moves the state on by one answer and one advance, reporting a final score when the session ends. */
  lemma PlayRound(s: State, total: nat, c: bool)
    ensures Play(s, total, OneRound(c)).0 == Advance(Answer(s, c), total).0
    ensures Play(s, total, OneRound(c)).1 ==
      (if Advance(Answer(s, c), total).1.GameOver? then [Advance(Answer(s, c), total).1.finalScore] else [])
  {
    var a := Answer(s, c);
    assert OneRound(c)[1..] == [Tick];
    assert [Tick][1..] == [];
    assert Play(s, total, OneRound(c)) == (Play(a, total, [Tick]).0, [] + Play(a, total, [Tick]).1);
  }

  /** Five problems, three right answers then two wrong ones: the session reports a score of 3. */
  lemma ThreeOfFive()
    ensures Play(Start(), 5, OneRound(true) + OneRound(true) + OneRound(true) + OneRound(false) + OneRound(false)).1 == [3]
  {
    var s1, s2, s3, s4 := State(1, 1, Unanswered), State(2, 2, Unanswered), State(3, 3, Unanswered), State(4, 3, Unanswered);
    PlayRound(Start(), 5, true);
    PlayRound(s1, 5, true);
    PlayRound(s2, 5, true);
    PlayRound(s3, 5, false);
    PlayRound(s4, 5, false);
    var x2 := OneRound(true) + OneRound(true);
    var x3 := x2 + OneRound(true);
    var x4 := x3 + OneRound(false);
    PlayConcat(Start(), 5, OneRound(true), OneRound(true));
    assert Play(Start(), 5, x2) == (s2, []);
    PlayConcat(Start(), 5, x2, OneRound(true));
    assert Play(Start(), 5, x3) == (s3, []);
    PlayConcat(Start(), 5, x3, OneRound(false));
    assert Play(Start(), 5, x4) == (s4, []);
    PlayConcat(Start(), 5, x4, OneRound(false));
  }

  /** Running two sequences of events one after the other is running their concatenation. */
  lemma {:induction false} PlayConcat(s: State, total: nat, first: seq<Event>, second: seq<Event>)
    ensures Play(s, total, first + second).0 == Play(Play(s, total, first).0, total, second).0
    ensures Play(s, total, first + second).1 == Play(s, total, first).1 + Play(Play(s, total, first).0, total, second).1
    decreases |first|
  {
    if first == [] {
      assert first + second == second;
    } else {
      assert (first + second)[0] == first[0];
      assert (first + second)[1..] == first[1..] + second;
      var t := match first[0]
        case Submit(c) => Answer(s, c)
        case Tick => Advance(s, total).0;
      PlayConcat(t, total, first[1..], second);
    }
  }
}
