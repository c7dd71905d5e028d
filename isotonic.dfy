/**
  Isotonic least squares on finite sequences of reals.

  A fit y of x is optimal among all non-decreasing sequences z when its suffix residuals
  Sum(x[t..]) - Sum(y[t..]) are never positive, vanish over the whole sequence, and vanish
  wherever y changes value. Abel summation turns those conditions into the inequality
  SqDist(x, y) <= SqDist(x, z).
*/
module Isotonic {
  import opened BlockStore

  ghost predicate NonDecreasing(s: seq<real>)
  {
    forall a, b :: 0 <= a <= b < |s| ==> s[a] <= s[b]
  }

  ghost predicate StrictlyIncreasing(s: seq<real>)
  {
    forall a, b :: 0 <= a < b < |s| ==> s[a] < s[b]
  }

  /** The squared Euclidean distance between two sequences of the same length. */
  function SqDist(a: seq<real>, b: seq<real>): (d: real)
    requires |a| == |b|
    ensures d >= 0.0
  {
    if a == [] then 0.0 else (a[0] - b[0]) * (a[0] - b[0]) + SqDist(a[1..], b[1..])
  }

  /** The sum of (x[t] - y[t]) * w[t] over all t. */
  function Weighted(x: seq<real>, y: seq<real>, w: seq<real>): real
    requires |x| == |y| == |w|
  {
    if x == [] then 0.0 else (x[0] - y[0]) * w[0] + Weighted(x[1..], y[1..], w[1..])
  }

  /** How much more x than y holds from index t on. */
  function Residual(x: seq<real>, y: seq<real>, t: int): real
    requires |x| == |y| && 0 <= t <= |x|
  {
    Sum(x[t..]) - Sum(y[t..])
  }

  /** The sum of Residual(x, y, t) * (w[t] - w[t - 1]) for t from 1 to |x| - 1. */
  function AbelTail(x: seq<real>, y: seq<real>, w: seq<real>): real
    requires |x| == |y| == |w|
  {
    if |x| <= 1 then 0.0 else Residual(x, y, 1) * (w[1] - w[0]) + AbelTail(x[1..], y[1..], w[1..])
  }

  /** The residual conditions that characterise the isotonic least-squares fit. */
  ghost predicate Balanced(x: seq<real>, y: seq<real>)
  {
    && |x| == |y|
    && Residual(x, y, 0) == 0.0
    && (forall t :: 0 <= t <= |x| ==> Residual(x, y, t) <= 0.0)
    && (forall t :: 1 <= t < |x| && y[t - 1] != y[t] ==> Residual(x, y, t) == 0.0)
  }

  /** Residuals of a suffix of the sequences are residuals of the sequences, shifted by one. */
  lemma ResidualShift(x: seq<real>, y: seq<real>, t: int)
    requires |x| == |y| && 1 <= t <= |x|
    ensures Residual(x[1..], y[1..], t - 1) == Residual(x, y, t)
  {
    assert x[1..][t - 1..] == x[t..];
    assert y[1..][t - 1..] == y[t..];
  }

  /** The residual from t is the difference at t plus the residual from t + 1. */
  lemma ResidualStep(x: seq<real>, y: seq<real>, t: int)
    requires |x| == |y| && 0 <= t < |x|
    ensures Residual(x, y, t) == (x[t] - y[t]) + Residual(x, y, t + 1)
  {
    assert x[t..][1..] == x[t + 1..];
    assert y[t..][1..] == y[t + 1..];
  }

  /** The residual from t splits at any later index u. */
  lemma ResidualSplit(x: seq<real>, y: seq<real>, t: int, u: int)
    requires |x| == |y| && 0 <= t <= u <= |x|
    ensures Residual(x, y, t) == (Sum(x[t..u]) - Sum(y[t..u])) + Residual(x, y, u)
  {
    assert x[t..] == x[t..u] + x[u..];
    assert y[t..] == y[t..u] + y[u..];
    SumConcat(x[t..u], x[u..]);
    SumConcat(y[t..u], y[u..]);
  }

  /** Abel summation: the weighted sum of differences rewritten over suffix residuals. */
  lemma {:induction false} AbelSummation(x: seq<real>, y: seq<real>, w: seq<real>)
    requires |x| == |y| == |w| >= 1
    ensures Weighted(x, y, w) == Residual(x, y, 0) * w[0] + AbelTail(x, y, w)
  {
    ResidualStep(x, y, 0);
    if |x| == 1 {
      assert x[1..] == [] && y[1..] == [];
    } else {
      AbelSummation(x[1..], y[1..], w[1..]);
      ResidualShift(x, y, 1);
      var d0, r1 := x[0] - y[0], Residual(x, y, 1);
      assert d0 * w[0] + r1 * w[1] == (d0 + r1) * w[0] + r1 * (w[1] - w[0]);
    }
  }

  lemma ProductNonPos(p: real, q: real)
    requires p <= 0.0 && q >= 0.0
    ensures p * q <= 0.0
  {
  }

  /** With no positive suffix residual and a non-decreasing w, the Abel tail is not positive. */
  lemma {:induction false} AbelTailNonPos(x: seq<real>, y: seq<real>, w: seq<real>)
    requires |x| == |y| == |w|
    requires forall t :: 1 <= t < |x| ==> Residual(x, y, t) <= 0.0
    requires NonDecreasing(w)
    ensures AbelTail(x, y, w) <= 0.0
  {
    if |x| > 1 {
      var head := Residual(x, y, 1) * (w[1] - w[0]);
      ProductNonPos(Residual(x, y, 1), w[1] - w[0]);
      forall t | 1 <= t < |x| - 1
        ensures Residual(x[1..], y[1..], t) <= 0.0
      {
        ResidualShift(x, y, t + 1);
      }
      AbelTailNonPos(x[1..], y[1..], w[1..]);
      assert AbelTail(x, y, w) == head + AbelTail(x[1..], y[1..], w[1..]);
    }
  }

  /** Where every change of y comes with a zero residual, the Abel tail of y itself vanishes. */
  lemma {:induction false} AbelTailZero(x: seq<real>, y: seq<real>)
    requires |x| == |y|
    requires forall t :: 1 <= t < |x| && y[t - 1] != y[t] ==> Residual(x, y, t) == 0.0
    ensures AbelTail(x, y, y) == 0.0
  {
    if |x| > 1 {
      assert Residual(x, y, 1) * (y[1] - y[0]) == 0.0;
      forall t | 1 <= t < |x| - 1 && y[1..][t - 1] != y[1..][t]
        ensures Residual(x[1..], y[1..], t) == 0.0
      {
        ResidualShift(x, y, t + 1);
      }
      AbelTailZero(x[1..], y[1..]);
    }
  }

  /** The squared distance to z, expanded around y. */
  lemma {:induction false} ExpandSqDist(x: seq<real>, y: seq<real>, z: seq<real>)
    requires |x| == |y| == |z|
    ensures SqDist(x, z) == SqDist(x, y) + SqDist(y, z) - 2.0 * (Weighted(x, y, z) - Weighted(x, y, y))
  {
    if x != [] {
      ExpandSqDist(x[1..], y[1..], z[1..]);
      var a, b, c := x[0], y[0], z[0];
      assert (a - c) * (a - c) == (a - b) * (a - b) + (b - c) * (b - c) - 2.0 * ((a - b) * c - (a - b) * b);
    }
  }

  /**
    A fit that meets the residual conditions is at least as close to x, in squared distance,
    as every non-decreasing sequence of the same length.
  */
  lemma LeastSquares(x: seq<real>, y: seq<real>, z: seq<real>)
    requires Balanced(x, y) && |z| == |x| && NonDecreasing(z)
    ensures SqDist(x, y) <= SqDist(x, z)
  {
    ExpandSqDist(x, y, z);
    if |x| > 0 {
      AbelSummation(x, y, z);
      AbelSummation(x, y, y);
      AbelTailNonPos(x, y, z);
      AbelTailZero(x, y);
    }
  }
}
