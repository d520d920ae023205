/**
 * Score and level arithmetic shared by App.tsx, App.js and index.js: a solved
 * puzzle is worth 250 points and the level is `Math.floor(score / 1000) + 1`.
 */
module Scoring {
  import opened GameTypes

  const SolveReward: int := 250
  const PointsPerLevel: int := 1000

  /** `Math.floor(score / 1000) + 1`, with the division done on reals as JavaScript does. */
  function LevelFor(score: int): int
  {
    (score as real / PointsPerLevel as real).Floor + 1
  }

  /** The level is one more than the number of whole thousands in the score: it
      agrees with integer division and brackets the score. */
  lemma LevelForBounds(score: int)
    ensures LevelFor(score) == score / PointsPerLevel + 1
    ensures PointsPerLevel * (LevelFor(score) - 1) <= score < PointsPerLevel * LevelFor(score)
  {
    var q := score / PointsPerLevel;
    assert q as real <= score as real / 1000.0 < q as real + 1.0;
  }

  /** More points never lower the level. */
  lemma LevelForMonotone(a: int, b: int)
    requires a <= b
    ensures LevelFor(a) <= LevelFor(b)
  {
    LevelForBounds(a);
    LevelForBounds(b);
  }

  const InitialStats: PlayerStats := PlayerStats([], 0, 1)

  /** The state update of a solve: append the puzzle id, add the reward, and
      recompute the level from the new score. */
  function AwardSolve(stats: PlayerStats, puzzleId: string): PlayerStats
  {
    PlayerStats(stats.gemsCollected + [puzzleId], stats.score + SolveReward, LevelFor(stats.score + SolveReward))
  }

  /** The invariant the handlers keep: 250 points per recorded solve, and the level
      that score earns. */
  predicate Consistent(stats: PlayerStats)
  {
    stats.score == SolveReward * |stats.gemsCollected| && stats.level == LevelFor(stats.score)
  }

  lemma InitialConsistent()
    ensures Consistent(InitialStats)
  {
  }

  /** A solve keeps the invariant, records exactly one more id, and never lowers the level. */
  lemma AwardKeepsConsistent(stats: PlayerStats, puzzleId: string)
    requires Consistent(stats)
    ensures Consistent(AwardSolve(stats, puzzleId))
    ensures |AwardSolve(stats, puzzleId).gemsCollected| == |stats.gemsCollected| + 1
    ensures AwardSolve(stats, puzzleId).level >= stats.level
  {
    LevelForMonotone(stats.score, stats.score + SolveReward);
  }

  /** Under the invariant every four solves earn one level. */
  lemma LevelCountsSolves(stats: PlayerStats)
    requires Consistent(stats)
    ensures stats.level == |stats.gemsCollected| / 4 + 1
  {
    var n := |stats.gemsCollected|;
    LevelForBounds(stats.score);
    assert stats.score / PointsPerLevel == n / 4 by {
      var q := n / 4;
      assert n == 4 * q + n % 4;
      assert stats.score == PointsPerLevel * q + SolveReward * (n % 4);
    }
  }
}
