/** Exact real arithmetic standing in for the numpy/pandas reductions the
    scripts call (`np.mean`, `np.max`, `Series.mean`, `Series.min`, ...). */
module Numeric {

  function Abs(x: real): (r: real)
    ensures r >= 0.0 && (r == x || r == -x)
  {
    if x < 0.0 then -x else x
  }

  /** Sum of a sequence, left to right. */
  function Sum(s: seq<real>): real
    decreases |s|
  {
    if s == [] then 0.0 else Sum(s[..|s| - 1]) + s[|s| - 1]
  }

  /** Arithmetic mean; undefined on the empty sequence. */
  function Mean(s: seq<real>): real
    requires |s| > 0
  {
    Sum(s) / |s| as real
  }

  /** Largest element. */
  function Max(s: seq<real>): real
    requires |s| > 0
    decreases |s|
  {
    if |s| == 1 then s[0]
    else var m := Max(s[..|s| - 1]); if s[|s| - 1] > m then s[|s| - 1] else m
  }

  /** Smallest element. */
  function Min(s: seq<real>): real
    requires |s| > 0
    decreases |s|
  {
    if |s| == 1 then s[0]
    else var m := Min(s[..|s| - 1]); if s[|s| - 1] < m then s[|s| - 1] else m
  }

  /** `Max` is an element of the sequence and bounds every element from above. */
  lemma {:induction false} MaxIsMaximum(s: seq<real>)
    requires |s| > 0
    ensures Max(s) in s
    ensures forall i :: 0 <= i < |s| ==> s[i] <= Max(s)
    decreases |s|
  {
    if |s| > 1 {
      var s' := s[..|s| - 1];
      MaxIsMaximum(s');
      assert forall i :: 0 <= i < |s'| ==> s[i] == s'[i];
    }
  }

  /** `Min` is an element of the sequence and bounds every element from below. */
  lemma {:induction false} MinIsMinimum(s: seq<real>)
    requires |s| > 0
    ensures Min(s) in s
    ensures forall i :: 0 <= i < |s| ==> Min(s) <= s[i]
    decreases |s|
  {
    if |s| > 1 {
      var s' := s[..|s| - 1];
      MinIsMinimum(s');
      assert forall i :: 0 <= i < |s'| ==> s[i] == s'[i];
    }
  }

  lemma {:induction false} SumBounds(s: seq<real>, lo: real, hi: real)
    requires forall i :: 0 <= i < |s| ==> lo <= s[i] <= hi
    ensures |s| as real * lo <= Sum(s) <= |s| as real * hi
    decreases |s|
  {
    if s != [] {
      var s' := s[..|s| - 1];
      assert forall i :: 0 <= i < |s'| ==> s'[i] == s[i];
      SumBounds(s', lo, hi);
      var n', x := |s'| as real, s[|s| - 1];
      assert Sum(s) == Sum(s') + x;
      assert lo <= x <= hi;
      assert |s| as real == n' + 1.0;
      assert (n' + 1.0) * lo == n' * lo + lo;
      assert (n' + 1.0) * hi == n' * hi + hi;
    }
  }

  /** Dividing both sides of `n * a <= x <= n * b` by a positive `n`. */
  lemma DivideBounds(x: real, n: real, a: real, b: real)
    requires n > 0.0
    requires n * a <= x <= n * b
    ensures a <= x / n <= b
  {
    var q := x / n;
    assert q * n == x;
  }

  /** The mean lies between the smallest and the largest element. */
  lemma MeanBetweenMinAndMax(s: seq<real>)
    requires |s| > 0
    ensures Min(s) <= Mean(s) <= Max(s)
  {
    MinIsMinimum(s);
    MaxIsMaximum(s);
    SumBounds(s, Min(s), Max(s));
    DivideBounds(Sum(s), |s| as real, Min(s), Max(s));
  }
}
