/**
 The wing-flap animation of main.js as a function of its frame counter: the
 up sprite for the first 30% of a 15-frame flap, the down sprite up to 60%, the
 middle sprite for the rest, and the end of the animation after 15 frames.
 */
module Wings {

  const FlapDuration: nat := 15

  datatype Sprite = Up | Mid | Down

  /** What one animation frame does: show a sprite, or end the flap. */
  datatype Frame = Show(sprite: Sprite) | Finished

  function FrameAt(progress: nat): (f: Frame)
    ensures f == Finished <==> progress >= 15
    ensures f == Show(Up) <==> progress <= 4
    ensures f == Show(Down) <==> 5 <= progress <= 8
    ensures f == Show(Mid) <==> 9 <= progress <= 14
  {
    var t := progress as real;
    var d := FlapDuration as real;
    if t < d then
      if t < d * 0.3 then Show(Up)
      else if t < d * 0.6 then Show(Down)
      else Show(Mid)
    else
      Finished
  }

  /** The frames of one flap, in order. */
  function Sequence(n: nat): seq<Frame>
    ensures |Sequence(n)| == n
  {
    if n == 0 then [] else Sequence(n - 1) + [FrameAt(n - 1)]
  }

  /** A whole flap shows five up frames, four down frames and six middle frames, then ends. */
  lemma FlapShape()
    ensures Sequence(16) ==
      [Show(Up), Show(Up), Show(Up), Show(Up), Show(Up),
       Show(Down), Show(Down), Show(Down), Show(Down),
       Show(Mid), Show(Mid), Show(Mid), Show(Mid), Show(Mid), Show(Mid),
       Finished]
  {
    var expected := [Show(Up), Show(Up), Show(Up), Show(Up), Show(Up),
       Show(Down), Show(Down), Show(Down), Show(Down),
       Show(Mid), Show(Mid), Show(Mid), Show(Mid), Show(Mid), Show(Mid),
       Finished];
    forall i | 0 <= i < 16
      ensures Sequence(16)[i] == FrameAt(i)
    {
      SequenceAt(16, i);
    }
    assert forall i :: 0 <= i < 16 ==> Sequence(16)[i] == expected[i];
  }

  lemma {:induction false} SequenceAt(n: nat, i: nat)
    requires i < n
    ensures Sequence(n)[i] == FrameAt(i)
  {
    if i < n - 1 {
      SequenceAt(n - 1, i);
    }
  }
}
