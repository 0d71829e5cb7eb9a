/**
 The game rules of main.js as pure functions over one state record: the
 per-frame update, the key and touch handlers, game over and reset.

 There are only two states, playing and game over: play starts at once and a
 reset goes straight back to playing.
 */
module Game {
  import opened Geometry
  import opened Pipes
  import opened Scoring
  import Physics

  /** Bird x after a reset, on every device. */
  const ResetX: real := -4.0
  const KeyImpulse: real := 0.1
  const TouchImpulse: real := 0.12

  /** Bird x at start: -2 on mobile, -4 on desktop. */
  function StartX(mobile: bool): real {
    if mobile then -2.0 else -4.0
  }

  datatype GameState = GameState(
    gameOver: bool,
    birdX: real,
    birdY: real,
    velocity: real,
    pipes: seq<Pipe>,
    board: Scoreboard)

  /** States reachable from start: level and speed agree with the score and the bird sits at a known x. */
  predicate Valid(s: GameState, mobile: bool) {
    Consistent(s.board) && (s.birdX == StartX(mobile) || s.birdX == ResetX)
  }

  /** The state when the page starts: playing, one fresh pair, nothing scored. */
  function Initial(mobile: bool, rand: real): (s: GameState)
    requires 0.0 <= rand < 1.0
    ensures Valid(s, mobile) && !s.gameOver
    ensures s.birdX == (if mobile then -2.0 else -4.0) && s.birdY == 0.0 && s.velocity == 0.0
    ensures |s.pipes| == 1 && s.pipes[0].x == 15.0 && !s.pipes[0].scored
    ensures s.board.score == 0 && s.board.pipeSpeed == 0.05
  {
    GameState(false, StartX(mobile), 0.0, 0.0, [CreatePipe(rand)], Fresh)
  }

  /** Game over only raises the flag; everything else stays readable as it was. */
  function GameOver(s: GameState): (r: GameState)
    ensures r.gameOver
    ensures r.(gameOver := s.gameOver) == s
  {
    s.(gameOver := true)
  }

  /**
   A reset forgets the previous state: playing again, score, level and speed
   back to 0, 0 and 0.05, the bird at rest at (-4, 0) on every device, and a
   list holding exactly one fresh pair.
   */
  function Reset(rand: real): (r: GameState)
    requires 0.0 <= rand < 1.0
    ensures !r.gameOver
    ensures r.board.score == 0 && r.board.level == 0 && r.board.pipeSpeed == 0.05
    ensures Consistent(r.board)
    ensures r.birdX == -4.0 && r.birdY == 0.0 && r.velocity == 0.0
    ensures |r.pipes| == 1 && r.pipes[0].x == 15.0 && !r.pipes[0].scored
    ensures -2.0 <= r.pipes[0].gapCentre < 2.0
  {
    GameState(false, ResetX, 0.0, 0.0, [CreatePipe(rand)], Fresh)
  }

  /** The flap: velocity is overwritten, not increased. */
  function Flap(s: GameState, impulse: real): GameState {
    s.(velocity := impulse)
  }

  /**
   The key handler: only Space acts. While playing it sets the velocity to
   0.1 and changes nothing else; after game over it resets.
   */
  function OnKeyDown(s: GameState, code: string, rand: real): (r: GameState)
    requires 0.0 <= rand < 1.0
    ensures code != "Space" ==> r == s
    ensures code == "Space" && !s.gameOver ==> r.velocity == 0.1 && r.(velocity := s.velocity) == s
    ensures code == "Space" && s.gameOver ==> r == Reset(rand) && r.velocity == 0.0 && !r.gameOver
  {
    if code == "Space" then
      if s.gameOver then Reset(rand) else Flap(s, KeyImpulse)
    else
      s
  }

  /**
   The touch handler: while playing it sets the velocity to 0.12 and changes
   nothing else; after game over it resets.
   */
  function OnTouch(s: GameState, rand: real): (r: GameState)
    requires 0.0 <= rand < 1.0
    ensures !s.gameOver ==> r.velocity == 0.12 && r.(velocity := s.velocity) == s
    ensures s.gameOver ==> r == Reset(rand) && r.velocity == 0.0 && !r.gameOver
  {
    if s.gameOver then Reset(rand) else Flap(s, TouchImpulse)
  }

  /** The pair moved left by the current pipe speed. */
  function Advance(p: Pipe, speed: real): Pipe {
    p.(x := p.x - speed)
  }

  /**
   One call of the per-pipe callback of `update`, on the pair at index k. The
   pair moves by the speed current at that moment. A collision raises the
   game-over flag and ends only this pair's turn: it is neither scored nor
   removed. Otherwise a pair left of the bird that was not yet counted scores
   one point, and a pair left of x = -15 is spliced out of the list.
   */
  function PipeTurn(s: GameState, k: nat, mobile: bool, bird: Box): (r: GameState)
    requires k < |s.pipes|
    ensures r.birdX == s.birdX && r.birdY == s.birdY && r.velocity == s.velocity
    ensures s.gameOver ==> r.gameOver
    ensures r.board.score == s.board.score || r.board.score == s.board.score + 1
    ensures Consistent(s.board) ==>
      Consistent(r.board) && s.board.pipeSpeed <= r.board.pipeSpeed <= s.board.pipeSpeed + 0.01
    ensures |r.pipes| == |s.pipes| || |r.pipes| == |s.pipes| - 1
    ensures forall i :: 0 <= i < k ==> r.pipes[i] == s.pipes[i]
    ensures |r.pipes| < |s.pipes| ==> forall i :: k <= i < |r.pipes| ==> r.pipes[i] == s.pipes[i + 1]
    ensures |r.pipes| == |s.pipes| ==> forall i :: k < i < |r.pipes| ==> r.pipes[i] == s.pipes[i]
    ensures
      var x, hit := s.pipes[k].x - s.board.pipeSpeed, Collides(bird, Advance(s.pipes[k], s.board.pipeSpeed), mobile);
      && (hit ==> r.gameOver)
      && (!hit ==> r.gameOver == s.gameOver)
      && (hit ==> |r.pipes| == |s.pipes| && r.pipes[k] == Pipe(x, s.pipes[k].gapCentre, s.pipes[k].scored))
      && (!hit && x >= OffScreenX ==> |r.pipes| == |s.pipes| && r.pipes[k] == Pipe(x, s.pipes[k].gapCentre, s.pipes[k].scored || x < s.birdX))
      && (r.board.score > s.board.score <==> !hit && !s.pipes[k].scored && x < s.birdX)
      && (|r.pipes| < |s.pipes| <==> !hit && x < -15.0)
  {
    var moved := Advance(s.pipes[k], s.board.pipeSpeed);
    if Collides(bird, moved, mobile) then
      GameOver(s).(pipes := s.pipes[k := moved])
    else
      var passed := !moved.scored && moved.x < s.birdX;
      var kept := if passed then moved.(scored := true) else moved;
      var board := if passed then AwardPoint(s.board) else s.board;
      var pipes := s.pipes[k := kept];
      if kept.x < OffScreenX then s.(pipes := RemoveAt(pipes, k), board := board)
      else s.(pipes := pipes, board := board)
  }

  /**
   The `forEach` over the pipe list, from index k on. The index advances after
   every turn even when the turn spliced its pair out, so the pair that slid
   into that index is not visited this frame; the loop stops once the index
   passes the end of the (possibly shortened) list.
   */
  function VisitPipes(s: GameState, k: nat, mobile: bool, bird: Box): (r: GameState)
    ensures r.birdX == s.birdX && r.birdY == s.birdY && r.velocity == s.velocity
    ensures s.gameOver ==> r.gameOver
    ensures r.board.score >= s.board.score
    ensures Consistent(s.board) ==> Consistent(r.board)
    ensures |r.pipes| <= |s.pipes|
    ensures k <= |s.pipes| ==> |r.pipes| >= k
    ensures forall i :: 0 <= i < k && i < |r.pipes| ==> r.pipes[i] == s.pipes[i]
    decreases |s.pipes| + 1 - k
  {
    if k >= |s.pipes| then s
    else VisitPipes(PipeTurn(s, k, mobile, bird), k + 1, mobile, bird)
  }

  /**
   One frame of play. `rand` is the random draw used if a pair is spawned and
   `bird` is the bird's bounding box at its new position. After game over the
   state is frozen. Otherwise gravity acts; leaving the [-8, 8] band ends the
   game before any spawn, move or score; then the spawn rule runs before any
   pair moves, and finally every pair is visited.
   */
  function Update(s: GameState, mobile: bool, rand: real, bird: Box): (r: GameState)
    requires 0.0 <= rand < 1.0
    ensures s.gameOver ==> r == s
    ensures !s.gameOver ==> r.velocity == s.velocity - 0.004 && r.birdY == s.birdY + r.velocity
    ensures !s.gameOver && (r.birdY > 8.0 || r.birdY < -8.0) ==>
      r.gameOver && r.pipes == s.pipes && r.board == s.board
    ensures r.birdX == s.birdX
    ensures r.board.score >= s.board.score
    ensures Consistent(s.board) ==> Consistent(r.board)
  {
    if s.gameOver then s
    else
      var m := Physics.Fall(Physics.Motion(s.birdY, s.velocity));
      var s1 := s.(birdY := m.y, velocity := m.velocity);
      if Physics.OutOfBounds(m.y) then GameOver(s1)
      else VisitPipes(s1.(pipes := MaybeSpawn(s1.pipes, rand)), 0, mobile, bird)
  }

  /** Whether this frame's update reaches the pipes: the game is on and the bird stays in the band. */
  predicate PipesMoveThisFrame(s: GameState) {
    !s.gameOver && !Physics.OutOfBounds(Physics.Fall(Physics.Motion(s.birdY, s.velocity)).y)
  }

  /** Whether this frame's update spawned a pair. */
  predicate SpawnsThisFrame(s: GameState) {
    PipesMoveThisFrame(s) && ShouldSpawn(s.pipes)
  }

  /**
   Points are conserved by one turn: a point awarded turns one uncounted pair
   into a counted one, and only counted pairs are removed, as long as the bird
   is right of the removal line.
   */
  lemma TurnConservesPoints(s: GameState, k: nat, mobile: bool, bird: Box)
    requires k < |s.pipes|
    requires s.birdX >= OffScreenX
    ensures
      var r := PipeTurn(s, k, mobile, bird);
      r.board.score + Unscored(r.pipes) == s.board.score + Unscored(s.pipes)
  {
    var moved := Advance(s.pipes[k], s.board.pipeSpeed);
    if Collides(bird, moved, mobile) {
      UnscoredReplace(s.pipes, k, moved);
    } else {
      var passed := !moved.scored && moved.x < s.birdX;
      var kept := if passed then moved.(scored := true) else moved;
      UnscoredReplace(s.pipes, k, kept);
      if kept.x < OffScreenX {
        assert kept.scored;
        UnscoredRemove(s.pipes[k := kept], k);
      }
    }
  }

  /** The same conservation over the whole loop. */
  lemma {:induction false} VisitConservesPoints(s: GameState, k: nat, mobile: bool, bird: Box)
    requires s.birdX >= OffScreenX
    ensures
      var r := VisitPipes(s, k, mobile, bird);
      r.board.score + Unscored(r.pipes) == s.board.score + Unscored(s.pipes)
    decreases |s.pipes| + 1 - k
  {
    if k < |s.pipes| {
      TurnConservesPoints(s, k, mobile, bird);
      VisitConservesPoints(PipeTurn(s, k, mobile, bird), k + 1, mobile, bird);
    }
  }

  /**
   The loop moves every pair it visits. On a consistent board, with every pair
   from index k on at least one unit right of the removal line and the speed
   still at most 1 after one level-up per remaining pair, nothing is spliced
   out: the list keeps its length, and every visited pair keeps its gap centre
   and ends between 0.05 and 1 further left.
   */
  lemma VisitMovesEveryPair(s: GameState, k: nat, mobile: bool, bird: Box)
    requires Consistent(s.board)
    requires k <= |s.pipes|
    requires forall i :: k <= i < |s.pipes| ==> s.pipes[i].x >= OffScreenX + 1.0
    requires s.board.pipeSpeed + 0.01 * (|s.pipes| - k) as real <= 1.0
    ensures
      var r := VisitPipes(s, k, mobile, bird);
      && |r.pipes| == |s.pipes|
      && forall i :: k <= i < |s.pipes| ==> MovedLeft(s.pipes[i], r.pipes[i])
  {
    VisitKeepsLength(s, k, mobile, bird);
    forall i | k <= i < |s.pipes|
      ensures MovedLeft(s.pipes[i], VisitPipes(s, k, mobile, bird).pipes[i])
    {
      VisitMovesPair(s, k, i, mobile, bird);
    }
  }

  /** Under the same hypotheses the loop splices nothing out. */
  lemma {:induction false} VisitKeepsLength(s: GameState, k: nat, mobile: bool, bird: Box)
    requires RoomToMove(s, k)
    ensures |VisitPipes(s, k, mobile, bird).pipes| == |s.pipes|
    decreases |s.pipes| - k
  {
    if k < |s.pipes| {
      var s1 := TurnMovesPair(s, k, mobile, bird);
      VisitKeepsLength(s1, k + 1, mobile, bird);
    }
  }

  /** The pair at index i, one of those the loop visits from index k, moves left. */
  lemma {:induction false} VisitMovesPair(s: GameState, k: nat, i: nat, mobile: bool, bird: Box)
    requires RoomToMove(s, k) && k <= i < |s.pipes|
    ensures i < |VisitPipes(s, k, mobile, bird).pipes|
    ensures MovedLeft(s.pipes[i], VisitPipes(s, k, mobile, bird).pipes[i])
    decreases i - k
  {
    var s1 := TurnMovesPair(s, k, mobile, bird);
    if i > k {
      VisitMovesPair(s1, k + 1, i, mobile, bird);
    }
  }

  /** The pair keeps its gap centre and has moved between 0.05 and 1 to the left. */
  predicate MovedLeft(before: Pipe, after: Pipe) {
    after.gapCentre == before.gapCentre && before.x - 1.0 <= after.x <= before.x - 0.05
  }

  /** The hypotheses of `VisitMovesEveryPair`, bundled. */
  predicate RoomToMove(s: GameState, k: nat) {
    && Consistent(s.board)
    && k <= |s.pipes|
    && (forall i :: k <= i < |s.pipes| ==> s.pipes[i].x >= OffScreenX + 1.0)
    && s.board.pipeSpeed + 0.01 * (|s.pipes| - k) as real <= 1.0
  }

  /** One turn of the loop under the hypotheses of `VisitMovesEveryPair`. */
  lemma TurnMovesPair(s: GameState, k: nat, mobile: bool, bird: Box) returns (r: GameState)
    requires RoomToMove(s, k) && k < |s.pipes|
    ensures r == PipeTurn(s, k, mobile, bird)
    ensures RoomToMove(r, k + 1)
    ensures |r.pipes| == |s.pipes|
    ensures MovedLeft(s.pipes[k], r.pipes[k])
    ensures forall i :: k < i < |s.pipes| ==> r.pipes[i] == s.pipes[i]
  {
    r := PipeTurn(s, k, mobile, bird);
    assert s.board.pipeSpeed >= 0.05;
  }

  /**
   A frame that reaches the pipes moves all of them, the one spawned in it
   included, as long as no pair is near the removal line and the speed stays
   at most 1 after one level-up per pair: the list grows only by the spawned
   pair, and every pair keeps its gap centre and moves between 0.05 and 1 left.
   */
  lemma UpdateMovesPairs(s: GameState, mobile: bool, rand: real, bird: Box)
    requires 0.0 <= rand < 1.0
    requires Consistent(s.board)
    requires forall i :: 0 <= i < |s.pipes| ==> s.pipes[i].x >= OffScreenX + 1.0
    requires s.board.pipeSpeed + 0.01 * (|s.pipes| + 1) as real <= 1.0
    ensures
      var r := Update(s, mobile, rand, bird);
      PipesMoveThisFrame(s) ==>
        && |r.pipes| == |s.pipes| + (if ShouldSpawn(s.pipes) then 1 else 0)
        && (forall i :: 0 <= i < |s.pipes| ==> MovedLeft(s.pipes[i], r.pipes[i]))
        && (ShouldSpawn(s.pipes) ==> MovedLeft(CreatePipe(rand), r.pipes[|s.pipes|]))
  {
    if PipesMoveThisFrame(s) {
      var s1 := SpawnLeavesRoom(s, mobile, rand, bird);
      VisitMovesEveryPair(s1, 0, mobile, bird);
    }
  }

  /** In a frame that reaches the pipes, the loop starts from the list after the spawn test, with room to move. */
  lemma SpawnLeavesRoom(s: GameState, mobile: bool, rand: real, bird: Box) returns (s1: GameState)
    requires 0.0 <= rand < 1.0
    requires PipesMoveThisFrame(s)
    requires Consistent(s.board)
    requires forall i :: 0 <= i < |s.pipes| ==> s.pipes[i].x >= OffScreenX + 1.0
    requires s.board.pipeSpeed + 0.01 * (|s.pipes| + 1) as real <= 1.0
    ensures s1.pipes == MaybeSpawn(s.pipes, rand)
    ensures Update(s, mobile, rand, bird) == VisitPipes(s1, 0, mobile, bird)
    ensures RoomToMove(s1, 0)
  {
    var m := Physics.Fall(Physics.Motion(s.birdY, s.velocity));
    s1 := s.(birdY := m.y, velocity := m.velocity, pipes := MaybeSpawn(s.pipes, rand));
  }

  /**
   Each pair yields at most one point: over a frame the score rises by exactly
   the number of pairs that stopped being uncounted, counting the pair spawned
   in that frame.
   */
  lemma UpdateConservesPoints(s: GameState, mobile: bool, rand: real, bird: Box)
    requires 0.0 <= rand < 1.0
    requires Valid(s, mobile)
    ensures
      var r := Update(s, mobile, rand, bird);
      r.board.score + Unscored(r.pipes) == s.board.score + Unscored(s.pipes) + (if SpawnsThisFrame(s) then 1 else 0)
  {
    if !s.gameOver {
      var m := Physics.Fall(Physics.Motion(s.birdY, s.velocity));
      var s1 := s.(birdY := m.y, velocity := m.velocity);
      if !Physics.OutOfBounds(m.y) {
        var s2 := s1.(pipes := MaybeSpawn(s1.pipes, rand));
        if ShouldSpawn(s.pipes) {
          UnscoredAppend(s.pipes, [CreatePipe(rand)]);
          assert Unscored([CreatePipe(rand)]) == 1;
        }
        VisitConservesPoints(s2, 0, mobile, bird);
      }
    }
  }

  /** The points gained in one frame never exceed the uncounted pairs plus the one possibly spawned. */
  lemma UpdateScoreBound(s: GameState, mobile: bool, rand: real, bird: Box)
    requires 0.0 <= rand < 1.0
    requires Valid(s, mobile)
    ensures
      var r := Update(s, mobile, rand, bird);
      s.board.score <= r.board.score <= s.board.score + Unscored(s.pipes) + 1
  {
    UpdateConservesPoints(s, mobile, rand, bird);
  }

  /** A frame with no pair left uncounted and no spawn awards nothing. */
  lemma CountedPairsNeverScoreAgain(s: GameState, mobile: bool, rand: real, bird: Box)
    requires 0.0 <= rand < 1.0
    requires Valid(s, mobile)
    requires forall i :: 0 <= i < |s.pipes| ==> s.pipes[i].scored
    requires !ShouldSpawn(s.pipes)
    ensures Update(s, mobile, rand, bird).board.score == s.board.score
  {
    AllScoredMeansNoneUncounted(s.pipes);
    UpdateConservesPoints(s, mobile, rand, bird);
  }

  lemma {:induction false} AllScoredMeansNoneUncounted(ps: seq<Pipe>)
    requires forall i :: 0 <= i < |ps| ==> ps[i].scored
    ensures Unscored(ps) == 0
  {
    if |ps| > 0 {
      AllScoredMeansNoneUncounted(ps[1..]);
    }
  }

  /** Valid states stay valid under every event. */
  lemma InitialIsValid(mobile: bool, rand: real)
    requires 0.0 <= rand < 1.0
    ensures Valid(Initial(mobile, rand), mobile)
  {
  }

  lemma UpdatePreservesValid(s: GameState, mobile: bool, rand: real, bird: Box)
    requires 0.0 <= rand < 1.0
    requires Valid(s, mobile)
    ensures Valid(Update(s, mobile, rand, bird), mobile)
  {
  }

  lemma InputPreservesValid(s: GameState, mobile: bool, code: string, rand: real)
    requires 0.0 <= rand < 1.0
    requires Valid(s, mobile)
    ensures Valid(OnKeyDown(s, code, rand), mobile)
    ensures Valid(OnTouch(s, rand), mobile)
  {
  }

  /**
   The flap is an override, not an accumulation: the result does not depend
   on the velocity before, and flapping twice is the same as flapping once.
   */
  lemma FlapOverrides(s: GameState, v1: real, v2: real, rand: real)
    requires 0.0 <= rand < 1.0
    requires !s.gameOver
    ensures OnKeyDown(s.(velocity := v1), "Space", rand) == OnKeyDown(s.(velocity := v2), "Space", rand)
    ensures OnKeyDown(OnKeyDown(s, "Space", rand), "Space", rand) == OnKeyDown(s, "Space", rand)
    ensures OnTouch(s.(velocity := v1), rand) == OnTouch(s.(velocity := v2), rand)
    ensures OnTouch(OnTouch(s, rand), rand) == OnTouch(s, rand)
  {
  }

  /** Game over is sticky: any number of frames leave the state as it is. */
  lemma GameOverIsFrozen(s: GameState, mobile: bool, rand: real, bird: Box)
    requires 0.0 <= rand < 1.0
    ensures Update(GameOver(s), mobile, rand, bird) == GameOver(s)
  {
  }
}
