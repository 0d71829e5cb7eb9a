/**
 Pipe pairs: where a new pair is placed, the boxes of its two pipes, the
 forgiving collision test against the bird, the spawn rule, and the removal of
 one entry from the pipe list.
 */
module Pipes {
  import opened Geometry

  const SpawnX: real := 15.0
  /** A new pair is spawned once the newest pair has moved left of this x. */
  const SpawnTrigger: real := 7.0
  /** A pair left of this x is removed. */
  const OffScreenX: real := -15.0
  const BaseGap: real := 5.0
  const MobileGapFactor: real := 1.4
  /** Each pipe is a 1 x 10 x 1 box centred on its position. */
  const PipeSize: Vec3 := Vec3(1.0, 10.0, 1.0)

  /**
   A pipe pair: the x shared by the top and bottom pipe, the centre of the gap
   between them, and whether the pair has already been counted.
   */
  datatype Pipe = Pipe(x: real, gapCentre: real, scored: bool)

  /** The vertical opening between the two pipes of a pair. */
  function Gap(mobile: bool): (g: real)
    ensures g == if mobile then 7.0 else 5.0
  {
    if mobile then BaseGap * MobileGapFactor else BaseGap
  }

  /** The gap centre drawn from a random number `rand` in [0, 1). */
  function GapCentre(rand: real): (c: real)
    requires 0.0 <= rand < 1.0
    ensures -2.0 <= c < 2.0
  {
    rand * 4.0 - 2.0
  }

  /** A fresh, unscored pair at the right edge. */
  function CreatePipe(rand: real): (p: Pipe)
    requires 0.0 <= rand < 1.0
    ensures p.x == 15.0 && !p.scored
    ensures -2.0 <= p.gapCentre < 2.0
  {
    Pipe(SpawnX, GapCentre(rand), false)
  }

  function TopBox(p: Pipe, mobile: bool): Box {
    CenteredBox(Vec3(p.x, p.gapCentre + Gap(mobile) / 2.0 + 5.0, 0.0), PipeSize)
  }

  function BottomBox(p: Pipe, mobile: bool): Box {
    CenteredBox(Vec3(p.x, p.gapCentre - Gap(mobile) / 2.0 - 5.0, 0.0), PipeSize)
  }

  /**
   The two pipes of a pair share their x extent; the top pipe starts at the
   gap centre plus half the gap, the bottom pipe ends at the gap centre minus
   half the gap, so the opening between them is exactly the gap.
   */
  lemma PairGeometry(p: Pipe, mobile: bool)
    ensures WellFormed(TopBox(p, mobile)) && WellFormed(BottomBox(p, mobile))
    ensures TopBox(p, mobile).min.x == BottomBox(p, mobile).min.x == p.x - 0.5
    ensures TopBox(p, mobile).max.x == BottomBox(p, mobile).max.x == p.x + 0.5
    ensures TopBox(p, mobile).min.y == p.gapCentre + Gap(mobile) / 2.0
    ensures BottomBox(p, mobile).max.y == p.gapCentre - Gap(mobile) / 2.0
    ensures TopBox(p, mobile).min.y - BottomBox(p, mobile).max.y == Gap(mobile)
  {
  }

  /** The bird box hits the forgiving box of the top or of the bottom pipe. */
  predicate Collides(bird: Box, p: Pipe, mobile: bool) {
    Intersects(bird, Forgiving(TopBox(p, mobile))) || Intersects(bird, Forgiving(BottomBox(p, mobile)))
  }

  /** Closed intervals [lo1, hi1] and [lo2, hi2] meet. */
  predicate Overlap(lo1: real, hi1: real, lo2: real, hi2: real) {
    lo1 <= hi2 && lo2 <= hi1
  }

  /**
   The collision test in plain numbers: the forgiving boxes span x in
   [x - 0.4, x + 0.4] and z in [-0.4, 0.4]; the top one spans y from
   gap/2 + 1 to gap/2 + 9 above the gap centre, the bottom one the mirror image.
   */
  lemma CollidesIff(bird: Box, p: Pipe, mobile: bool)
    ensures
      var c, h := p.gapCentre, Gap(mobile) / 2.0;
      Collides(bird, p, mobile) <==>
        && Overlap(bird.min.x, bird.max.x, p.x - 0.4, p.x + 0.4)
        && Overlap(bird.min.z, bird.max.z, -0.4, 0.4)
        && (|| Overlap(bird.min.y, bird.max.y, c + h + 1.0, c + h + 9.0)
            || Overlap(bird.min.y, bird.max.y, c - h - 9.0, c - h - 1.0))
  {
  }

  /**
   The leniency widens the opening: a bird box strictly inside the band one
   unit beyond each pipe end never collides.
   */
  lemma ClearInsideWidenedGap(bird: Box, p: Pipe, mobile: bool)
    requires p.gapCentre - Gap(mobile) / 2.0 - 1.0 < bird.min.y
    requires bird.max.y < p.gapCentre + Gap(mobile) / 2.0 + 1.0
    ensures !Collides(bird, p, mobile)
  {
    CollidesIff(bird, p, mobile);
  }

  /** The newest pair exists and has moved left of the trigger. */
  predicate ShouldSpawn(ps: seq<Pipe>) {
    |ps| > 0 && ps[|ps| - 1].x < SpawnTrigger
  }

  /**
   The spawn rule: a fresh pair is appended exactly when the list is non-empty
   and its last pair is left of x = 7; the existing pairs are untouched.
   */
  function MaybeSpawn(ps: seq<Pipe>, rand: real): (r: seq<Pipe>)
    requires 0.0 <= rand < 1.0
    ensures |r| == |ps| + 1 <==> |ps| > 0 && ps[|ps| - 1].x < 7.0
    ensures |r| == |ps| || |r| == |ps| + 1
    ensures r[..|ps|] == ps
    ensures |r| > |ps| ==> r[|ps|] == CreatePipe(rand)
  {
    if ShouldSpawn(ps) then ps + [CreatePipe(rand)] else ps
  }

  /** `splice(k, 1)`: the entry at k goes, later entries shift down by one. */
  function RemoveAt(ps: seq<Pipe>, k: nat): (r: seq<Pipe>)
    requires k < |ps|
    ensures |r| == |ps| - 1
    ensures forall i :: 0 <= i < k ==> r[i] == ps[i]
    ensures forall i :: k <= i < |r| ==> r[i] == ps[i + 1]
  {
    ps[..k] + ps[k + 1..]
  }

  function Weight(p: Pipe): nat {
    if p.scored then 0 else 1
  }

  /** The number of pairs not yet counted. */
  function Unscored(ps: seq<Pipe>): nat {
    if |ps| == 0 then 0 else Weight(ps[0]) + Unscored(ps[1..])
  }

  lemma {:induction false} UnscoredAppend(a: seq<Pipe>, b: seq<Pipe>)
    ensures Unscored(a + b) == Unscored(a) + Unscored(b)
  {
    if |a| == 0 {
      assert a + b == b;
    } else {
      assert (a + b)[1..] == a[1..] + b;
      UnscoredAppend(a[1..], b);
    }
  }

  lemma UnscoredSplit(ps: seq<Pipe>, k: nat)
    requires k < |ps|
    ensures Unscored(ps) == Unscored(ps[..k]) + Weight(ps[k]) + Unscored(ps[k + 1..])
  {
    assert ps == ps[..k] + ([ps[k]] + ps[k + 1..]);
    UnscoredAppend(ps[..k], [ps[k]] + ps[k + 1..]);
    UnscoredAppend([ps[k]], ps[k + 1..]);
    assert ([ps[k]] + ps[k + 1..])[1..] == ps[k + 1..];
  }

  /** Replacing one pair changes the count by the difference of the two weights. */
  lemma UnscoredReplace(ps: seq<Pipe>, k: nat, p: Pipe)
    requires k < |ps|
    ensures Unscored(ps[k := p]) == Unscored(ps) - Weight(ps[k]) + Weight(p)
  {
    var qs := ps[k := p];
    UnscoredSplit(ps, k);
    UnscoredSplit(qs, k);
    assert qs[..k] == ps[..k];
    assert qs[k + 1..] == ps[k + 1..];
  }

  /** Removing a pair lowers the count by its weight. */
  lemma UnscoredRemove(ps: seq<Pipe>, k: nat)
    requires k < |ps|
    ensures Unscored(RemoveAt(ps, k)) == Unscored(ps) - Weight(ps[k])
  {
    UnscoredSplit(ps, k);
    UnscoredAppend(ps[..k], ps[k + 1..]);
  }
}
