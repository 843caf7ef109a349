/**
 * Quality grading and the fixed-step SuperMemo-2 scheduler
 * (src/utils/cognitive/sm2.ts). Ease is an exact real; dates are day numbers.
 */
module Sm2 {

  /** The fuzzy score a grade needs, for grades 1 to 5 (grade 0 needs nothing). */
  function GradeThreshold(k: int): real
    requires 1 <= k <= 5
  {
    [0.20, 0.40, 0.60, 0.80, 0.95][k - 1]
  }

  /** calculateQualityGrade: the threshold ladder, highest threshold first. */
  function QualityGrade(fuzzyScore: real): (grade: int)
    ensures 0 <= grade <= 5
    ensures forall k :: 1 <= k <= 5 ==> (grade >= k <==> fuzzyScore >= GradeThreshold(k))
  {
    if fuzzyScore >= 0.95 then 5
    else if fuzzyScore >= 0.80 then 4
    else if fuzzyScore >= 0.60 then 3
    else if fuzzyScore >= 0.40 then 2
    else if fuzzyScore >= 0.20 then 1
    else 0
  }

  /** A better fuzzy score never earns a lower grade. */
  lemma QualityGradeMonotone(s1: real, s2: real)
    requires s1 <= s2
    ensures QualityGrade(s1) <= QualityGrade(s2)
  {
  }

  /** The scheduling state a review produces. */
  datatype Sm2Result = Sm2Result(easeFactor: real, interval: int, repetitions: int, nextReview: int)

  /** Review intervals in days, indexed by repetition count and capped at the last step. */
  const IntervalSteps: seq<int> := [1, 2, 5, 7, 14, 28]

  const MinEase: real := 1.3

  /** The SM-2 ease change before clamping, `0.1 - (5 - q) * (0.08 + (5 - q) * 0.02)`. */
  function EaseDelta(q: int): real {
    var miss := (5 - q) as real;
    0.1 - miss * (0.08 + miss * 0.02)
  }

  /**
   * calculateSM2 without its timezone block: a failing grade (below 3)
   * resets repetitions to 0 and the interval to one day; a passing grade
   * counts one more repetition and takes the interval from the step table.
   * The ease moves by EaseDelta in both branches and never drops below 1.3.
   * The next review is `today + interval` in day numbers.
   */
  function CalculateSm2(qualityGrade: int, repetitions: int, previousEase: real, today: int): (r: Sm2Result)
    requires repetitions >= 0
    ensures r.easeFactor >= MinEase
    ensures r.easeFactor >= previousEase + EaseDelta(qualityGrade)
    ensures r.easeFactor > MinEase ==> r.easeFactor == previousEase + EaseDelta(qualityGrade)
    ensures qualityGrade < 3 ==> r.repetitions == 0 && r.interval == 1
    ensures qualityGrade >= 3 ==> r.repetitions == repetitions + 1
    ensures qualityGrade >= 3 && repetitions < 5 ==> r.interval == IntervalSteps[repetitions]
    ensures qualityGrade >= 3 && repetitions >= 5 ==> r.interval == 28
    ensures r.interval in IntervalSteps && 1 <= r.interval <= 28
    ensures r.nextReview == today + r.interval
  {
    var newRepetitions := if qualityGrade < 3 then 0 else repetitions + 1;
    var stepIndex := if newRepetitions - 1 < |IntervalSteps| - 1 then newRepetitions - 1 else |IntervalSteps| - 1;
    var newInterval := if qualityGrade < 3 then 1 else IntervalSteps[stepIndex];
    var ease := previousEase + EaseDelta(qualityGrade);
    var newEase := if ease < MinEase then MinEase else ease;
    Sm2Result(newEase, newInterval, newRepetitions, today + newInterval)
  }

  /** The ease change for each grade on the 0 to 5 scale. */
  lemma EaseDeltaValues()
    ensures EaseDelta(5) == 0.1 && EaseDelta(4) == 0.0 && EaseDelta(3) == -0.14
    ensures EaseDelta(2) == -0.32 && EaseDelta(1) == -0.54 && EaseDelta(0) == -0.8
  {
  }

  /**
   * A better grade never lowers the ease more, on the grade scale and two
   * grades beyond it: the delta peaks at grade 7.
   */
  lemma EaseDeltaMonotone(q1: int, q2: int)
    requires q1 <= q2 <= 7
    ensures EaseDelta(q1) <= EaseDelta(q2)
  {
    var m1, m2 := (5 - q1) as real, (5 - q2) as real;
    assert -2.0 <= m2 <= m1;
    assert EaseDelta(q2) - EaseDelta(q1) == (m1 - m2) * (0.08 + 0.02 * (m1 + m2));
    assert 0.0 <= 0.08 + 0.02 * (m1 + m2);
  }

  /** Past the grade scale the delta rises to 0.18 at grade 7 and then falls. */
  lemma EaseDeltaAboveScale()
    ensures EaseDelta(6) == 0.16 && EaseDelta(7) == 0.18 && EaseDelta(8) == 0.16
    ensures EaseDelta(8) < EaseDelta(7)
  {
  }

  /** Interval, repetitions and due day do not depend on the prior ease. */
  lemma ScheduleIgnoresEase(q: int, repetitions: int, e1: real, e2: real, today: int)
    requires repetitions >= 0
    ensures CalculateSm2(q, repetitions, e1, today).interval == CalculateSm2(q, repetitions, e2, today).interval
    ensures CalculateSm2(q, repetitions, e1, today).repetitions == CalculateSm2(q, repetitions, e2, today).repetitions
    ensures CalculateSm2(q, repetitions, e1, today).nextReview == CalculateSm2(q, repetitions, e2, today).nextReview
  {
  }

  /** A higher prior ease never gives a lower new ease. */
  lemma EaseMonotoneInPrior(q: int, repetitions: int, e1: real, e2: real, today: int)
    requires repetitions >= 0 && e1 <= e2
    ensures CalculateSm2(q, repetitions, e1, today).easeFactor <= CalculateSm2(q, repetitions, e2, today).easeFactor
  {
  }

  /** Scheduling state carried from one review of a card to the next. */
  datatype CardSchedule = CardSchedule(easeFactor: real, repetitions: nat, interval: int)

  /**
   * Applies a sequence of graded reviews, in order. Every review is dated
   * day 0: the day only sets the next review date, never the schedule.
   */
  function ReviewAll(s: CardSchedule, grades: seq<int>): (r: CardSchedule)
    decreases |grades|
  {
    if |grades| == 0 then s
    else
      var res := CalculateSm2(grades[0], s.repetitions, s.easeFactor, 0);
      ReviewAll(CardSchedule(res.easeFactor, res.repetitions, res.interval), grades[1..])
  }

  /**
   * After n passing reviews in a row from a fresh or just-failed card,
   * the card has n repetitions and the interval at index min(n - 1, 5) of
   * IntervalSteps: the n-th step, or the last step from the sixth review on.
   */
  lemma {:induction false} PassingStreak(s: CardSchedule, grades: seq<int>)
    requires s.repetitions == 0
    requires |grades| > 0 && forall i :: 0 <= i < |grades| ==> grades[i] >= 3
    ensures ReviewAll(s, grades).repetitions == |grades|
    ensures ReviewAll(s, grades).interval == IntervalSteps[if |grades| < 6 then |grades| - 1 else 5]
  {
    StreakFrom(s, grades);
  }

  lemma {:induction false} StreakFrom(s: CardSchedule, grades: seq<int>)
    requires |grades| > 0 && forall i :: 0 <= i < |grades| ==> grades[i] >= 3
    ensures ReviewAll(s, grades).repetitions == s.repetitions + |grades|
    ensures ReviewAll(s, grades).interval
            == IntervalSteps[if s.repetitions + |grades| < 6 then s.repetitions + |grades| - 1 else 5]
    decreases |grades|
  {
    var res := CalculateSm2(grades[0], s.repetitions, s.easeFactor, 0);
    var next := CardSchedule(res.easeFactor, res.repetitions, res.interval);
    if |grades| > 1 {
      StreakFrom(next, grades[1..]);
    }
  }

  /** Any run of reviews keeps the ease at or above 1.3 and the interval on the step table. */
  lemma {:induction false} ReviewAllInvariant(s: CardSchedule, grades: seq<int>)
    requires s.easeFactor >= MinEase && s.interval in IntervalSteps
    ensures ReviewAll(s, grades).easeFactor >= MinEase
    ensures ReviewAll(s, grades).interval in IntervalSteps
    decreases |grades|
  {
    if |grades| > 0 {
      var res := CalculateSm2(grades[0], s.repetitions, s.easeFactor, 0);
      ReviewAllInvariant(CardSchedule(res.easeFactor, res.repetitions, res.interval), grades[1..]);
    }
  }

  /** Three failures in a row from ease 2.5: 1.7, then the floor 1.3, then 1.3 again. */
  lemma ThreeFailures()
    ensures ReviewAll(CardSchedule(2.5, 0, 1), [0]).easeFactor == 1.7
    ensures ReviewAll(CardSchedule(2.5, 0, 1), [0, 0]).easeFactor == MinEase
    ensures ReviewAll(CardSchedule(2.5, 0, 1), [0, 0, 0]) == CardSchedule(MinEase, 0, 1)
  {
  }

  /** A first correct-but-imperfect review: one repetition, one day, ease unchanged. */
  lemma FirstGoodReview(today: int)
    ensures CalculateSm2(4, 0, 2.5, today) == Sm2Result(2.5, 1, 1, today + 1)
  {
  }
}
