/**
 * Down-mix of the two decoded channels: the absolute value of every sample of
 * the left and right channels, averaged pairwise (server/src/routes/api/sound.js:55-64).
 */
module DownMix {
  import opened Samples

  /** The down-mixed signal: one value per left-channel sample. */
  function Mixed(left: seq<real>, right: seq<real>): seq<real>
    requires |left| <= |right|
  {
    seq(|left|, i requires 0 <= i < |left| => (Abs(left[i]) + Abs(right[i])) / 2.0)
  }

  /** The `for` loop that pushes `(leftData[i] + rightData[i]) / 2` for every left sample. */
  method DownMixChannels(left: seq<real>, right: seq<real>) returns (normalized: seq<real>)
    requires |left| <= |right|
    ensures |normalized| == |left|
    ensures forall i :: 0 <= i < |left| ==> normalized[i] == (Abs(left[i]) + Abs(right[i])) / 2.0
    ensures AllNonNegative(normalized)
    ensures normalized == Mixed(left, right)
  {
    normalized := [];
    for i := 0 to |left|
      invariant |normalized| == i
      invariant forall j :: 0 <= j < i ==> normalized[j] == (Abs(left[j]) + Abs(right[j])) / 2.0
    {
      var v := (Abs(left[i]) + Abs(right[i])) / 2.0;
      normalized := normalized + [v];
    }
  }

  /** With identical channels the down-mix is the absolute value of that channel. */
  lemma MixedOfIdenticalChannels(channel: seq<real>, i: nat)
    requires i < |channel|
    ensures Mixed(channel, channel)[i] == Abs(channel[i])
  {
  }

  lemma MixedNonNegative(left: seq<real>, right: seq<real>)
    requires |left| <= |right|
    ensures |Mixed(left, right)| == |left|
    ensures AllNonNegative(Mixed(left, right))
  {
  }
}
