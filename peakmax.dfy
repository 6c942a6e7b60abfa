/**
 * `peaks.reduce((cand, cur) => Math.max(cand, cur))` without an initial value
 * (server/src/routes/api/sound.js:83).
 */
module PeakMax {
  import opened Wrappers

  /** `Math.max` on two reals. */
  function MathMax(a: real, b: real): (m: real)
    ensures m >= a && m >= b
    ensures m == a || m == b
  {
    if a >= b then a else b
  }

  /** The fold `reduce` performs once its accumulator holds `cand`. */
  function FoldMax(cand: real, rest: seq<real>): (m: real)
    ensures m >= cand
    ensures forall i :: 0 <= i < |rest| ==> rest[i] <= m
    ensures m == cand || m in rest
    decreases |rest|
  {
    if rest == [] then cand else FoldMax(MathMax(cand, rest[0]), rest[1..])
  }

  /**
   * `reduce` seeds the accumulator with the first element; on an empty array
   * it throws, modelled as `None`.
   */
  function ReduceMax(peaks: seq<real>): (r: Option<real>)
    ensures r.None? <==> peaks == []
    ensures r.Some? ==> r.value in peaks
    ensures r.Some? ==> forall i :: 0 <= i < |peaks| ==> peaks[i] <= r.value
  {
    if peaks == [] then None else Some(FoldMax(peaks[0], peaks[1..]))
  }
}
