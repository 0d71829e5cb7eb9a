/**
 The bird's vertical motion: one gravity step per frame, velocity first and
 then position, and the [-8, 8] band outside which the run ends.
 */
module Physics {

  const Gravity: real := 0.004
  const Ceiling: real := 8.0
  const Floor: real := -8.0

  datatype Motion = Motion(y: real, velocity: real)

  /** One frame: velocity drops by gravity, then the bird moves by the new velocity. */
  function Fall(m: Motion): (r: Motion)
    ensures r.velocity == m.velocity - 0.004
    ensures r.y - m.y == r.velocity
  {
    var v := m.velocity - Gravity;
    Motion(m.y + v, v)
  }

  /** Strictly above the ceiling or strictly below the floor. */
  predicate OutOfBounds(y: real) {
    y > Ceiling || y < Floor
  }

  function FallFor(m: Motion, n: nat): Motion {
    if n == 0 then m else Fall(FallFor(m, n - 1))
  }

  /** From rest at height 0, after n frames: velocity -0.004 n, height -0.002 n (n + 1). */
  lemma {:induction false} FreeFallClosedForm(n: nat)
    ensures FallFor(Motion(0.0, 0.0), n) == Motion(-0.002 * (n * (n + 1)) as real, -0.004 * n as real)
  {
    if n > 0 {
      FreeFallClosedForm(n - 1);
      assert n * (n + 1) == (n - 1) * n + 2 * n;
    }
  }

  lemma ProductMonotone(a: nat, b: nat)
    requires a <= b
    ensures a * (a + 1) <= b * (b + 1)
  {
  }

  /**
   A bird released at rest from height 0 that never flaps stays in bounds for
   62 frames and is out of bounds from frame 63 on.
   */
  lemma FreeFallLeavesAtFrame63(n: nat)
    ensures OutOfBounds(FallFor(Motion(0.0, 0.0), n).y) <==> n >= 63
  {
    FreeFallClosedForm(n);
    if n >= 63 {
      ProductMonotone(63, n);
    } else {
      ProductMonotone(n, 62);
    }
  }
}
