/**
 * `calculateWave` (server/src/routes/api/sound.js:45-86) after decoding: the
 * down-mix, the bucketing into peaks and the maximum of the peaks.
 */
module Wave {
  import opened Wrappers
  import opened Samples
  import opened DownMix
  import opened Chunks
  import opened PeakMax

  /** The `{ max, peaks }` object the handler sends. */
  datatype Wave = Wave(max: real, peaks: seq<real>)

  /** `reduce` found no peak to start from: the input had no samples. */
  datatype WaveError = EmptyInput

  /** The waveform of two decoded channels, as the three passes compute it. */
  function WaveOf(left: seq<real>, right: seq<real>): Result<Wave, WaveError>
    requires |left| <= |right|
  {
    var peaks := Peaks(Mixed(left, right));
    match ReduceMax(peaks)
    case None => Err(EmptyInput)
    case Some(m) => Ok(Wave(m, peaks))
  }

  /** What every waveform satisfies, and when there is none. */
  lemma WaveShape(left: seq<real>, right: seq<real>)
    requires |left| <= |right|
    ensures WaveOf(left, right).Err? <==> |left| == 0
    ensures WaveOf(left, right).Ok? ==>
              var w := WaveOf(left, right).value;
              && |w.peaks| == PeakCount(|left|)
              && 1 <= |w.peaks| <= TargetChunks
              && AllNonNegative(w.peaks)
              && w.max in w.peaks
              && w.max >= 0.0
              && (forall i :: 0 <= i < |w.peaks| ==> w.peaks[i] <= w.max)
  {
    var mixed := Mixed(left, right);
    MixedNonNegative(left, right);
    PeaksNonNegative(mixed);
    PeakCountBound(|left|);
  }

  /** The down-mix loop, the bucketing loop and the `reduce`, in that order. */
  method CalculateWave(left: seq<real>, right: seq<real>) returns (r: Result<Wave, WaveError>)
    requires |left| <= |right|
    ensures r == WaveOf(left, right)
    ensures r.Err? <==> |left| == 0
    ensures r.Ok? ==> 1 <= |r.value.peaks| <= TargetChunks && AllNonNegative(r.value.peaks)
    ensures r.Ok? ==> r.value.max in r.value.peaks
    ensures r.Ok? ==> forall i :: 0 <= i < |r.value.peaks| ==> r.value.peaks[i] <= r.value.max
  {
    var normalized := DownMixChannels(left, right);
    var peaks := ChunkPeaks(normalized);
    WaveShape(left, right);
    match ReduceMax(peaks)
    case None =>
      r := Err(EmptyInput);
    case Some(max) =>
      r := Ok(Wave(max, peaks));
  }
}
