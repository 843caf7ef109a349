/** Experience points, levels and rank titles (src/utils/xp/xpUtils.ts). */
module XpUtils {

  /** calculateXpForReview: 15 for a perfect grade, 10 for grade 4 or more, else 0. */
  function XpForReview(qualityGrade: int): (xp: nat)
    ensures qualityGrade == 5 ==> xp == 15
    ensures qualityGrade == 4 ==> xp == 10
    ensures qualityGrade < 4 ==> xp == 0
    ensures xp > 0 <==> qualityGrade >= 4
  {
    if qualityGrade == 5 then 15
    else if qualityGrade >= 4 then 10
    else 0
  }

  /** On the 0 to 5 grade scale a better grade never earns less XP. */
  lemma XpForReviewMonotone(q1: int, q2: int)
    requires q1 <= q2 <= 5
    ensures XpForReview(q1) <= XpForReview(q2)
  {
  }

  /** Total XP needed to reach level L: `50 * (L - 1) * L`. */
  function CumulativeXp(level: nat): nat {
    if level == 0 then 0 else 50 * (level - 1) * level
  }

  /** Reaching level L + 1 from level L costs 100 * L. */
  lemma CumulativeStep(level: nat)
    ensures CumulativeXp(level + 1) == CumulativeXp(level) + 100 * level
  {
    assert (level + 1) * level == level * (level - 1) + 2 * level;
  }

  lemma {:induction false} CumulativeMonotone(a: nat, b: nat)
    requires a <= b
    ensures CumulativeXp(a) <= CumulativeXp(b)
    decreases b - a
  {
    if a < b {
      CumulativeStep(a);
      CumulativeMonotone(a + 1, b);
    }
  }

  /** Searches upward from `level` for the last level whose cumulative XP is reached. */
  function LevelFrom(level: nat, totalXp: nat): (r: nat)
    requires 1 <= level && CumulativeXp(level) <= totalXp
    ensures level <= r
    ensures CumulativeXp(r) <= totalXp < CumulativeXp(r + 1)
    decreases totalXp - CumulativeXp(level)
  {
    CumulativeStep(level);
    if CumulativeXp(level + 1) <= totalXp then LevelFrom(level + 1, totalXp) else level
  }

  /** The level of a non-negative XP total: the largest L >= 1 with CumulativeXp(L) <= totalXp. */
  function Level(totalXp: nat): (level: nat)
    ensures 1 <= level
    ensures CumulativeXp(level) <= totalXp < CumulativeXp(level + 1)
  {
    LevelFrom(1, totalXp)
  }

  lemma LevelIsLargest(totalXp: nat, other: nat)
    requires 1 <= other && CumulativeXp(other) <= totalXp
    ensures other <= Level(totalXp)
  {
    if other > Level(totalXp) {
      CumulativeMonotone(Level(totalXp) + 1, other);
    }
  }

  /** More XP never means a lower level. */
  lemma LevelMonotone(x1: nat, x2: nat)
    requires x1 <= x2
    ensures Level(x1) <= Level(x2)
  {
    LevelIsLargest(x2, Level(x1));
  }

  lemma LevelBoundary()
    ensures forall x: nat :: x < 100 ==> Level(x) == 1
    ensures Level(100) == 2
  {
    forall x: nat | x < 100
      ensures Level(x) == 1
    {
      if Level(x) >= 2 {
        CumulativeMonotone(2, Level(x));
      }
    }
    LevelIsLargest(100, 2);
  }

  /**
   * The level the source computes as `floor((1 + sqrt(1 + totalXp / 12.5)) / 2)`:
   * with an exact square root s, L = floor((1 + s) / 2) holds exactly when
   * (2L - 1)^2 <= s^2 < (2L + 1)^2, and this is what Level satisfies.
   */
  lemma LevelMatchesSquareRootFormula(totalXp: nat)
    ensures var L := Level(totalXp) as real;
            (2.0 * L - 1.0) * (2.0 * L - 1.0) <= 1.0 + totalXp as real / 12.5 < (2.0 * L + 1.0) * (2.0 * L + 1.0)
  {
    var L := Level(totalXp);
    ProductAsReal(L - 1, L);
    ProductAsReal(L, L + 1);
    SquareBracket(L as real, totalXp as real);
  }

  lemma ProductAsReal(a: int, b: int)
    ensures (a * b) as real == (a as real) * (b as real)
  {
  }

  lemma SquareBracket(r: real, x: real)
    requires 50.0 * ((r - 1.0) * r) <= x < 50.0 * (r * (r + 1.0))
    ensures (2.0 * r - 1.0) * (2.0 * r - 1.0) <= 1.0 + x / 12.5 < (2.0 * r + 1.0) * (2.0 * r + 1.0)
  {
    var below := (r - 1.0) * r;
    var above := r * (r + 1.0);
    assert (2.0 * r - 1.0) * (2.0 * r - 1.0) == 1.0 + 4.0 * below;
    assert (2.0 * r + 1.0) * (2.0 * r + 1.0) == 1.0 + 4.0 * above;
  }

  datatype LevelInfo = LevelInfo(level: nat, currentXp: int, xpForNextLevel: int)

  /** getLevelFromXp: the level, the XP earned inside it and the cost of the next level. */
  function GetLevelFromXp(totalXp: nat): (info: LevelInfo)
    ensures 1 <= info.level
    ensures info.xpForNextLevel == 100 * info.level
    ensures 0 <= info.currentXp < info.xpForNextLevel
    ensures CumulativeXp(info.level) + info.currentXp == totalXp
  {
    var level := Level(totalXp);
    CumulativeStep(level);
    LevelInfo(level, totalXp - CumulativeXp(level), 100 * level)
  }

  /** TITLES: rank thresholds in descending order. */
  const Titles: seq<(int, string)> := [
    (50, "Grandmaster"), (40, "Master"), (30, "Expert"), (20, "Scholar"),
    (10, "Apprentice"), (5, "Learner"), (1, "Novice")
  ]

  /** The title of the first threshold from position i on that `level` reaches, or "Novice". */
  function TitleFrom(i: nat, level: int): string
    requires i <= |Titles|
    decreases |Titles| - i
  {
    if i == |Titles| then "Novice"
    else if level >= Titles[i].0 then Titles[i].1
    else TitleFrom(i + 1, level)
  }

  /** getLevelTitle: the title of the first descending threshold the level meets. */
  function LevelTitle(level: int): (title: string)
    ensures level >= 50 ==> title == "Grandmaster"
    ensures 40 <= level < 50 ==> title == "Master"
    ensures 30 <= level < 40 ==> title == "Expert"
    ensures 20 <= level < 30 ==> title == "Scholar"
    ensures 10 <= level < 20 ==> title == "Apprentice"
    ensures 5 <= level < 10 ==> title == "Learner"
    ensures level < 5 ==> title == "Novice"
  {
    TitleLadder(level);
    TitleFrom(0, level)
  }

  lemma TitleLadder(level: int)
    ensures TitleFrom(0, level) == (if level >= 50 then "Grandmaster" else TitleFrom(1, level))
    ensures TitleFrom(1, level) == (if level >= 40 then "Master" else TitleFrom(2, level))
    ensures TitleFrom(2, level) == (if level >= 30 then "Expert" else TitleFrom(3, level))
    ensures TitleFrom(3, level) == (if level >= 20 then "Scholar" else TitleFrom(4, level))
    ensures TitleFrom(4, level) == (if level >= 10 then "Apprentice" else TitleFrom(5, level))
    ensures TitleFrom(5, level) == (if level >= 5 then "Learner" else TitleFrom(6, level))
    ensures TitleFrom(6, level) == "Novice"
  {
  }
}
