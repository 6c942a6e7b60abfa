/** Sample-level arithmetic: `Math.abs` and running sums of down-mixed samples. */
module Samples {

  /** `Math.abs` on a real-valued sample. */
  function Abs(x: real): (r: real)
    ensures r >= 0.0
    ensures r == x || r == -x
  {
    if x < 0.0 then -x else x
  }

  /** Sum of a sequence, accumulated left to right as `acc += s[i]` does. */
  function Sum(s: seq<real>): real
  {
    if s == [] then 0.0 else Sum(s[..|s| - 1]) + s[|s| - 1]
  }

  /** `total / n` for a positive count `n`. */
  function Average(total: real, n: int): real
    requires n > 0
  {
    total / (n as real)
  }

  predicate AllNonNegative(s: seq<real>)
  {
    forall i :: 0 <= i < |s| ==> s[i] >= 0.0
  }

  /** Adding one more sample to a slice adds it to the sum. */
  lemma SumExtend(s: seq<real>, a: nat, b: nat)
    requires a <= b < |s|
    ensures Sum(s[a..b + 1]) == Sum(s[a..b]) + s[b]
  {
    assert s[a..b + 1][..b - a] == s[a..b];
  }

  lemma {:induction false} SumNonNegative(s: seq<real>)
    requires AllNonNegative(s)
    ensures Sum(s) >= 0.0
  {
    if s != [] {
      SumNonNegative(s[..|s| - 1]);
    }
  }

  /** A sum over a prefix splits at any cut point. */
  lemma {:induction false} SumSplit(s: seq<real>, a: nat, b: nat)
    requires a <= b <= |s|
    ensures Sum(s[..b]) == Sum(s[..a]) + Sum(s[a..b])
  {
    if a < b {
      SumSplit(s, a, b - 1);
      assert s[..b][..b - 1] == s[..b - 1];
      SumExtend(s, a, b - 1);
    } else {
      assert s[a..b] == [];
    }
  }

  /** The sum of `n` equal samples is `n` times the sample. */
  lemma {:induction false} SumConstant(s: seq<real>, v: real)
    requires forall i :: 0 <= i < |s| ==> s[i] == v
    ensures Sum(s) == |s| as real * v
  {
    if s != [] {
      SumConstant(s[..|s| - 1], v);
    }
  }

  lemma UndoDivision(s: real, d: real)
    requires d != 0.0
    ensures s / d * d == s
  {
  }

  /** `n` equal samples summed and divided by `n` give the sample back. */
  lemma MeanOfConstant(s: seq<real>, v: real, d: int)
    requires forall i :: 0 <= i < |s| ==> s[i] == v
    requires d == |s| > 0
    ensures Sum(s) / (d as real) == v
  {
    SumConstant(s, v);
  }

  /** `n` equal samples summed and divided by `n + 1` give the sample scaled by `n / (n + 1)`. */
  lemma OverCountedConstant(s: seq<real>, v: real, n: int, d: int)
    requires forall i :: 0 <= i < |s| ==> s[i] == v
    requires n == |s| && d == n + 1
    ensures Sum(s) / (d as real) == v * (n as real) / ((n + 1) as real)
  {
    SumConstant(s, v);
  }
}
