/**
 How the per-pipe loop of `update` behaves where it differs from an idealised
 loop: a removal makes the loop skip the next pair, a collision does not stop
 the loop, and a pair spawned in a frame already moves in that frame.
 */
module Quirks {
  import opened Geometry
  import opened Pipes
  import opened Scoring
  import opened Game
  import Physics

  /**
   When the turn at index k splices its pair out, the pair that was at k + 1
   slides into index k, which the loop has already passed: it leaves the
   frame exactly as it entered it, neither moved, nor tested, nor scored.
   */
  lemma RemovalSkipsNextPair(s: GameState, k: nat, mobile: bool, bird: Box)
    requires k + 1 < |s.pipes|
    requires |PipeTurn(s, k, mobile, bird).pipes| < |s.pipes|
    ensures
      var r := VisitPipes(s, k, mobile, bird);
      k < |r.pipes| && r.pipes[k] == s.pipes[k + 1]
  {
  }

  /**
   The game-over flag has no effect on the loop: a collision ends only the
   turn of the colliding pair, and every later pair still moves, is still
   tested and can still score, exactly as if the game were still on.
   */
  lemma {:induction false} GameOverDoesNotStopTheLoop(s: GameState, k: nat, mobile: bool, bird: Box)
    ensures VisitPipes(GameOver(s), k, mobile, bird) == GameOver(VisitPipes(s, k, mobile, bird))
    decreases |s.pipes| + 1 - k
  {
    if k < |s.pipes| {
      assert PipeTurn(GameOver(s), k, mobile, bird) == GameOver(PipeTurn(s, k, mobile, bird));
      GameOverDoesNotStopTheLoop(PipeTurn(s, k, mobile, bird), k + 1, mobile, bird);
    }
  }

  /**
   The spawn test runs before any pair moves, so a pair spawned in a frame is
   visited in that same frame and ends it at 15 minus the pipe speed.
   */
  lemma SpawnedPairMovesAtOnce(s: GameState, mobile: bool, rand: real, bird: Box)
    requires 0.0 <= rand < 1.0
    requires Valid(s, mobile) && !s.gameOver
    requires !Physics.OutOfBounds(Physics.Fall(Physics.Motion(s.birdY, s.velocity)).y)
    requires |s.pipes| == 1 && s.pipes[0].scored
    requires -15.0 <= s.pipes[0].x - s.board.pipeSpeed && s.pipes[0].x < 7.0
    requires s.board.pipeSpeed <= 1.0
    ensures Update(s, mobile, rand, bird).pipes ==
      [Advance(s.pipes[0], s.board.pipeSpeed), Advance(CreatePipe(rand), s.board.pipeSpeed)]
  {
    var m := Physics.Fall(Physics.Motion(s.birdY, s.velocity));
    var s1 := s.(birdY := m.y, velocity := m.velocity, pipes := s.pipes + [CreatePipe(rand)]);
    assert Update(s, mobile, rand, bird) == VisitPipes(s1, 0, mobile, bird);
    var a, b := Advance(s.pipes[0], s.board.pipeSpeed), Advance(CreatePipe(rand), s.board.pipeSpeed);
    var s2 := PipeTurn(s1, 0, mobile, bird);
    assert s2.pipes == [a, CreatePipe(rand)] && s2.board == s1.board;
    var s3 := PipeTurn(s2, 1, mobile, bird);
    assert s3.pipes == [a, b];
    assert VisitPipes(s1, 0, mobile, bird) == VisitPipes(s2, 1, mobile, bird);
    assert VisitPipes(s2, 1, mobile, bird) == VisitPipes(s3, 2, mobile, bird);
  }

  /**
   On mobile the bird starts at x = -2 but a reset puts it at x = -4. An
   uncounted pair that the bird clears and that moves to x = -3 therefore
   scores for a bird at its start position and does not score for the same
   bird after a reset.
   */
  lemma ResetMovesMobileBird(s: GameState, k: nat, bird: Box, rand: real)
    requires 0.0 <= rand < 1.0
    requires k < |s.pipes| && !s.pipes[k].scored
    requires s.pipes[k].x - s.board.pipeSpeed == -3.0
    requires !Collides(bird, Advance(s.pipes[k], s.board.pipeSpeed), true)
    ensures PipeTurn(s.(birdX := Initial(true, rand).birdX), k, true, bird).board.score == s.board.score + 1
    ensures PipeTurn(s.(birdX := Reset(rand).birdX), k, true, bird).board.score == s.board.score
  {
  }
}
