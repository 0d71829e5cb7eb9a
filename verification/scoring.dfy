/**
 The score, level and pipe speed of main.js. A point is awarded per passed
 pipe; the level and the speed are recomputed only when the new score is a
 multiple of ten.
 */
module Scoring {

  const BaseSpeed: real := 0.05
  const SpeedPerLevel: real := 0.01
  const PointsPerLevel: nat := 10

  datatype Scoreboard = Scoreboard(score: nat, level: nat, pipeSpeed: real)

  /** The board at start and after a reset. */
  const Fresh: Scoreboard := Scoreboard(0, 0, BaseSpeed)

  function SpeedFor(level: nat): real {
    BaseSpeed + level as real * SpeedPerLevel
  }

  /** The level is the score in whole tens and the speed follows the level. */
  predicate Consistent(b: Scoreboard) {
    b.level == b.score / PointsPerLevel && b.pipeSpeed == SpeedFor(b.level)
  }

  /** One more point; at every tenth point the level and speed are recomputed. */
  function AwardPoint(b: Scoreboard): (r: Scoreboard)
    ensures r.score == b.score + 1
    ensures r.score % 10 == 0 ==> r.level == r.score / 10 && r.pipeSpeed == 0.05 + 0.01 * r.level as real
    ensures r.score % 10 != 0 ==> r.level == b.level && r.pipeSpeed == b.pipeSpeed
    ensures Consistent(b) ==> Consistent(r) && b.pipeSpeed <= r.pipeSpeed <= b.pipeSpeed + 0.01
  {
    var s := b.score + 1;
    if s % PointsPerLevel == 0 then
      var l := s / PointsPerLevel;
      Scoreboard(s, l, SpeedFor(l))
    else
      b.(score := s)
  }

  /** The fresh board is consistent: level 0, speed 0.05. */
  lemma FreshIsConsistent()
    ensures Consistent(Fresh) && Fresh.score == 0 && Fresh.pipeSpeed == 0.05
  {
  }

  /**
   Awarding n points one at a time from a fresh board gives level n / 10 and
   speed 0.05 + 0.01 * level, whatever n is.
   */
  function AwardPoints(b: Scoreboard, n: nat): Scoreboard {
    if n == 0 then b else AwardPoint(AwardPoints(b, n - 1))
  }

  lemma {:induction false} AwardPointsFromFresh(n: nat)
    ensures AwardPoints(Fresh, n).score == n
    ensures AwardPoints(Fresh, n).level == n / 10
    ensures AwardPoints(Fresh, n).pipeSpeed == 0.05 + 0.01 * (n / 10) as real
  {
    if n > 0 {
      AwardPointsFromFresh(n - 1);
    }
  }
}
