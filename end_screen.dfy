/**
 * The end-of-session summary: the score as a rounded percentage of the number
 * of problems, and the encouragement message chosen from that percentage.
 *
 * The percentage is computed exactly on integers.  For a positive number of
 * problems it is the nearest integer to 100 * score / total, halves rounded up
 * (the rounding `Math.round` performs); with no problems it is 0.
 */
module EndScreen {
  import Round

  /** Score as a percentage of `total`, rounded to the nearest integer, halves up. */
  function Percentage(score: int, total: int): (r: int)
    ensures total <= 0 ==> r == 0
    // r - 1/2 <= 100 * score / total < r + 1/2
    ensures total > 0 ==> 2 * total * r - total <= 200 * score < 2 * total * r + total
  {
    if total > 0 then (200 * score + total) / (2 * total) else 0
  }

  /** Multiplying by a non-negative factor keeps order. */
  lemma MulMonotone(a: int, x: int, y: int)
    requires a >= 0 && x <= y
    ensures a * x <= a * y
  {
    assert a * y - a * x == a * (y - x);
  }

  /** A score between none and all of the problems gives a percentage between 0 and 100. */
  lemma PercentageInRange(score: int, total: int)
    requires 0 <= score <= total
    ensures 0 <= Percentage(score, total) <= 100
  {
    if total > 0 {
      var r := Percentage(score, total);
      if r < 0 {
        MulMonotone(2 * total, r, -1);
      } else if r > 100 {
        MulMonotone(2 * total, 101, r);
        MulMonotone(200, score, total);
      }
    }
  }

  /** Answering every problem correctly gives exactly 100. */
  lemma AllRightIsHundred(total: int)
    requires total > 0
    ensures Percentage(total, total) == 100
  {
    var r := Percentage(total, total);
    if r < 100 {
      MulMonotone(2 * total, r, 99);
    } else if r > 100 {
      MulMonotone(2 * total, 101, r);
    }
  }

  /**
   * With fewer than 200 problems, a percentage of 100 means every problem was
   * answered correctly: one mistake costs at least half a percent.
   */
  lemma HundredOnlyWhenAllRight(score: int, total: int)
    requires 0 <= score <= total < 200
    requires Percentage(score, total) == 100
    ensures score == total
  {
    assert total > 0;
    assert 199 * total <= 200 * score;
  }

  /** The four encouragement tiers, from best to least. */
  datatype Tier = Perfect | Excellent | Great | GoodEffort

  /** The tier for a percentage: exactly 100, then at least 80, then at least 50, then the rest. */
  function TierOf(p: int): (t: Tier)
    ensures t == Perfect <==> p == 100
    ensures t == Excellent <==> p != 100 && p >= 80
    ensures t == Great <==> 50 <= p < 80
    ensures t == GoodEffort <==> p < 50
  {
    if p == 100 then Perfect
    else if p >= 80 then Excellent
    else if p >= 50 then Great
    else GoodEffort
  }

  /** The message shown for each tier. */
  function Message(t: Tier): (m: string)
    ensures m == "Good effort!" <==> t == GoodEffort
  {
    match t
    case Perfect => "Perfect Score! You're a Math Genius!"
    case Excellent => "Excellent Work! You're a Math Star!"
    case Great => "Great Job! Keep practicing!"
    case GoodEffort => "Good effort!"
  }

  /** Distinct tiers show distinct messages. */
  lemma MessagesDistinct(t: Tier, u: Tier)
    requires t != u
    ensures Message(t) != Message(u)
  {
    assert |Message(Perfect)| == 36 && |Message(Excellent)| == 35;
    assert |Message(Great)| == 27 && |Message(GoodEffort)| == 12;
  }

  /** The message for a final score out of `total` problems. */
  function Summary(score: int, total: int): (m: string)
    ensures total <= 0 ==> m == Message(GoodEffort)
  {
    Message(TierOf(Percentage(score, total)))
  }

  /** A full score on at least one problem always earns the top message. */
  lemma AllRightIsPerfect(total: int)
    requires total > 0
    ensures Summary(total, total) == Message(Perfect)
  {
    AllRightIsHundred(total);
  }

  /** Every score between none and all of the problems falls in exactly the tier its percentage band names. */
  lemma SummaryBands(score: int, total: int)
    requires 0 <= score <= total
    ensures var p := Percentage(score, total);
      0 <= p <= 100 &&
      (Summary(score, total) == Message(Perfect) <==> p == 100) &&
      (Summary(score, total) == Message(Excellent) <==> 80 <= p < 100) &&
      (Summary(score, total) == Message(Great) <==> 50 <= p < 80) &&
      (Summary(score, total) == Message(GoodEffort) <==> p < 50)
  {
    PercentageInRange(score, total);
    var p := Percentage(score, total);
    forall u: Tier | u != TierOf(p)
      ensures Message(TierOf(p)) != Message(u)
    {
      MessagesDistinct(TierOf(p), u);
    }
  }

  /** Three right answers out of five give 60 percent and the "Great Job" message. */
  lemma ThreeOfFiveIsGreat()
    ensures Percentage(3, 5) == 60
    ensures Summary(3, 5) == "Great Job! Keep practicing!"
  {
  }

  /** The session of three right then two wrong answers ends on the "Great Job" message. */
  lemma ThreeOfFiveSessionIsGreat()
    ensures var reported := Round.Play(Round.Start(), 5,
              Round.OneRound(true) + Round.OneRound(true) + Round.OneRound(true) + Round.OneRound(false) + Round.OneRound(false)).1;
      |reported| == 1 && Summary(reported[0], 5) == Message(Great)
  {
    Round.ThreeOfFive();
    ThreeOfFiveIsGreat();
  }
}
