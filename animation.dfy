/**
 * `waiting_animation`: rewrite the console line as "Reading" followed by the
 * next of four frames, once a second.
 */
module Animation {

  const Frames: seq<string> := [" ", ".", "..", "..."]

  /** What the `k`-th pass writes to the console. */
  function FrameText(k: nat): string {
    "\rReading" + Frames[k % 4]
  }

  /**
   * `ticks` passes of the loop (the `while True` cut to a finite run, the
   * one-second sleeps left out): returns what was written and the final
   * value of the frame counter, which never leaves 0..3.
   */
  method Animate(ticks: nat) returns (writes: seq<string>, i: nat)
    ensures |writes| == ticks
    ensures forall k :: 0 <= k < ticks ==> writes[k] == FrameText(k)
    ensures i < |Frames| && i == ticks % |Frames|
  {
    writes := [];
    i := 0;
    var t := 0;
    while t < ticks
      invariant t <= ticks && |writes| == t
      invariant i < |Frames| && i == t % |Frames|
      invariant forall k :: 0 <= k < t ==> writes[k] == FrameText(k)
    {
      writes := writes + ["\rReading" + Frames[i]];
      i := (i + 1) % 4;
      t := t + 1;
    }
  }

}
